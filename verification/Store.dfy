/** The outbox store of one relay: the statements of outbox_store.go, run against a table that
    other relays, business transactions and operators use at the same time. */
module Store {
  import opened Wrappers
  import opened Documents
  import opened Policy
  import opened Outbox
  import opened Protocol

  function LeasedEvent(c: OutboxEvent, leaseUntil: int, token: nat): OutboxEvent {
    OutboxEvent(c.id, LeaseRow(c.row, leaseUntil, token))
  }

  /** The first `n` candidates as claimPending hands them out, with consecutive tokens. */
  function Leased(found: seq<OutboxEvent>, n: nat, leaseUntil: int, firstToken: nat): (claimed: seq<OutboxEvent>)
    requires n <= |found|
    ensures |claimed| == n
  {
    if n == 0 then []
    else Leased(found, n - 1, leaseUntil, firstToken) + [LeasedEvent(found[n - 1], leaseUntil, firstToken + n - 1)]
  }

  /** The table once the first `n` candidates are claimed. */
  function LeaseAll(t: Table, found: seq<OutboxEvent>, n: nat, leaseUntil: int, firstToken: nat): Table
    requires n <= |found|
  {
    if n == 0 then t
    else
      var last := LeasedEvent(found[n - 1], leaseUntil, firstToken + n - 1);
      LeaseAll(t, found, n - 1, leaseUntil, firstToken)[last.id := last.row]
  }

  lemma {:induction false} LeasedAt(found: seq<OutboxEvent>, n: nat, leaseUntil: int, firstToken: nat)
    requires n <= |found|
    ensures forall i :: 0 <= i < n ==>
            Leased(found, n, leaseUntil, firstToken)[i] == LeasedEvent(found[i], leaseUntil, firstToken + i)
  {
    if n > 0 {
      LeasedAt(found, n - 1, leaseUntil, firstToken);
    }
  }

  lemma {:induction false} LeaseAllAt(t: Table, found: seq<OutboxEvent>, n: nat, leaseUntil: int, firstToken: nat)
    requires n <= |found| && InIdOrder(found)
    ensures var t' := LeaseAll(t, found, n, leaseUntil, firstToken);
            && (forall i :: 0 <= i < n ==>
                  found[i].id in t' && t'[found[i].id] == LeaseRow(found[i].row, leaseUntil, firstToken + i))
            && (forall id :: n == 0 || id > found[n - 1].id ==>
                  (id in t' <==> id in t) && (id in t ==> t'[id] == t[id]))
  {
    if n > 0 {
      LeaseAllAt(t, found, n - 1, leaseUntil, firstToken);
    }
  }

  lemma {:induction false} LeasePrefix(t: Table, found: seq<OutboxEvent>, n: nat, leaseUntil: int, firstToken: nat,
                                       k: nat)
    requires n <= k <= |found|
    ensures Leased(found[..k], n, leaseUntil, firstToken) == Leased(found, n, leaseUntil, firstToken)
    ensures LeaseAll(t, found[..k], n, leaseUntil, firstToken) == LeaseAll(t, found, n, leaseUntil, firstToken)
  {
    if n > 0 {
      LeasePrefix(t, found, n - 1, leaseUntil, firstToken, k);
    }
  }

  /** Alone on the table, a relay has claimed the first `n` candidates. */
  ghost predicate HasClaimed(before: Table, candidates: seq<OutboxEvent>, n: nat, leaseUntil: int, first: nat,
                             rows: Table, issued: nat, claimed: seq<OutboxEvent>)
    requires n <= |candidates|
  {
    && claimed == Leased(candidates, n, leaseUntil, first)
    && rows == LeaseAll(before, candidates, n, leaseUntil, first)
    && issued + 1 == first + n
  }

  /** ... and then wins the next one. */
  lemma SoloClaim(before: Table, candidates: seq<OutboxEvent>, i: nat, now: int, leaseUntil: int, first: nat,
                  rows: Table, issued: nat, claimed: seq<OutboxEvent>)
    requires i < |candidates| && InIdOrder(candidates)
    requires forall c :: c in candidates ==> c.id in before && c.row == before[c.id] && Claimable(c.row, now)
    requires HasClaimed(before, candidates, i, leaseUntil, first, rows, issued, claimed)
    ensures var (rows', won) := TryClaim(rows, candidates[i].id, now, leaseUntil, issued + 1);
            won && HasClaimed(before, candidates, i + 1, leaseUntil, first, rows', issued + 1,
                              claimed + [LeasedEvent(candidates[i], leaseUntil, issued + 1)])
  {
    LeaseAllAt(before, candidates, i, leaseUntil, first);
    assert candidates[i] in candidates;
  }

  /** What claimPending does alone on the table: the rows it hands out and the table it leaves. */
  function BatchOf(t: Table, now: int, until: int, batchSize: nat, lease: int, firstToken: nat)
    : (seq<OutboxEvent>, Table)
  {
    var found := Candidates(t, now, 1, until, batchSize);
    (Leased(found, |found|, now + lease, firstToken), LeaseAll(t, found, |found|, now + lease, firstToken))
  }

  lemma BatchIsPrefix(t: Table, now: int, until: int, batchSize: nat, lease: int, firstToken: nat)
    ensures var all := Candidates(t, now, 1, until, 4 * batchSize);
            var n := Min(|all|, batchSize);
            BatchOf(t, now, until, batchSize, lease, firstToken) ==
            (Leased(all, n, now + lease, firstToken), LeaseAll(t, all, n, now + lease, firstToken))
  {
    var all := Candidates(t, now, 1, until, 4 * batchSize);
    var n := Min(|all|, batchSize);
    CandidatesPrefix(t, now, 1, until, batchSize, 4 * batchSize);
    LeasePrefix(t, all, n, now + lease, firstToken, n);
  }

  /** Alone on the table, a full round of claims is that batch. */
  lemma SoloBatch(t: Table, now: int, until: int, batchSize: nat, lease: int, first: nat,
                  rows: Table, issued: nat, claimed: seq<OutboxEvent>)
    requires var all := Candidates(t, now, 1, until, 4 * batchSize);
             HasClaimed(t, all, Min(|all|, batchSize), now + lease, first, rows, issued, claimed)
    ensures (claimed, rows) == BatchOf(t, now, until, batchSize, lease, first)
  {
    BatchIsPrefix(t, now, until, batchSize, lease, first);
  }

  class OutboxStore {
    const cfg: Config
    const me: nat        // which relay of the protocol this one is
    const solo: bool     // whether nobody else touches the outbox
    const steady: bool   // whether every statement is carried out and acknowledged

    var rows: Table
    var nextId: nat
    var clock: int
    var issued: nat
    ghost const epoch: int
    ghost var run: seq<Step>  // the protocol steps taken so far, by this relay and by everybody else
    ghost var st: State       // the protocol state they lead to

    ghost predicate Ran()
      reads this
    {
      cfg.Normalized() && Led(cfg, epoch, run, st)
    }

    /** The database and this relay's memory are what a run of the protocol leads to. */
    ghost predicate Valid()
      reads this
    {
      && Ran()
      && st.table == rows && st.nextId == nextId && st.clock == clock && st.issued == issued
    }

    ghost predicate Quiet()
      reads this
    {
      Valid() && PhaseOf(st, me) == Idle
    }

    /** A relay that starts on the outbox as some run of the protocol has left it. */
    constructor (cfg: Config, me: nat, solo: bool, steady: bool, rows: Table, nextId: nat, clock: int, issued: nat,
                 ghost epoch: int, ghost run: seq<Step>, ghost st: State)
      requires cfg.Normalized() && Led(cfg, epoch, run, st) && PhaseOf(st, me) == Idle
      requires st.table == rows && st.nextId == nextId && st.clock == clock && st.issued == issued
      ensures Quiet() && this.cfg == cfg && this.me == me && this.solo == solo && this.steady == steady
      ensures this.rows == rows && this.clock == clock && this.run == run && this.st == st && this.epoch == epoch
    {
      this.cfg, this.me, this.solo, this.steady := cfg, me, solo, steady;
      this.rows, this.nextId, this.clock, this.issued := rows, nextId, clock, issued;
      this.epoch, this.run, this.st := epoch, run, st;
    }

    /** Whatever happens between two of this relay's statements: time passes and, unless the relay is
        alone, other relays, transactions and operators take protocol steps. */
    method Others()
      requires Valid()
      modifies this
      ensures Valid() && PhaseOf(st, me) == old(PhaseOf(st, me))
      ensures old(run) <= run && forall i :: |old(run)| <= i < |run| ==> !TakenBy(run[i], me)
      ensures clock >= old(clock) && issued >= old(issued)
      ensures solo ==> rows == old(rows) && nextId == old(nextId) && issued == old(issued)
      ensures solo ==> st.delivered == old(st.delivered)
    {
      var duration: nat :| true;
      clock := clock + duration;
      Take(Tick(duration));
    }

    /** This relay takes one step of the protocol; the caller has done the same to the database. */
    ghost method Take(step: Step)
      requires Ran() && Enabled(cfg, st, step)
      modifies this`st, this`run
      ensures Ran() && st == Apply(cfg, old(st), step) && run == old(run) + [step]
    {
      OneMore(cfg, InitialState(epoch), run, step);
      st, run := Apply(cfg, st, step), run + [step];
    }

    // --- Statements ---

    method Now() returns (now: int)
      ensures now == clock
    {
      now := clock;
    }

    /** Tokens are numbered by the statements that carry them. */
    method NewLeaseToken() returns (token: nat)
      ensures token == issued + 1
    {
      token := issued + 1;
    }

    /** The compare-and-set. It may also be carried out although its acknowledgement is lost. */
    method TryClaimRow(id: int, now: int, leaseUntil: int, token: nat) returns (r: Result<bool>, ghost ran: bool)
      modifies this`rows, this`issued
      ensures r.Success? ==> ran && (rows, r.value) == TryClaim(old(rows), id, now, leaseUntil, token)
      ensures ran ==> rows == TryClaim(old(rows), id, now, leaseUntil, token).0 && issued == old(issued) + 1
      ensures !ran ==> rows == old(rows) && issued == old(issued)
      ensures steady ==> r.Success?
    {
      var broken: bool := *;
      if broken && !steady {
        return Failure("try claim row"), false;
      }
      var won := id in rows && Claimable(rows[id], now);
      issued := issued + 1;
      if won {
        rows := rows[id := LeaseRow(rows[id], leaseUntil, token)];
      }
      var lost: bool := *;
      return if lost && !steady then Failure("try claim row: connection lost") else Success(won), true;
    }

    /** markSent, markRetry and markDead: rowLeaseToken's checks, then one fenced update. The update
        may also be carried out although its acknowledgement is lost. */
    method UpdateClaimedRow(event: OutboxEvent, mark: Mark, reason: string)
      returns (r: Result<()>, ghost ran: bool)
      modifies this`rows
      ensures r.Success? ==> ran
      ensures ran ==>
                rows == (match WriteBack(old(rows), event, mark, reason)
                         case Success(t) => t
                         case Failure(_) => old(rows))
      ensures !ran ==> rows == old(rows)
      ensures ran && WriteBack(old(rows), event, mark, reason).Failure? ==> r.Failure?
      ensures steady && WriteBack(old(rows), event, mark, reason).Success? ==> r.Success?
    {
      ran := false;
      if event.id <= 0 {
        return Failure("invalid row id"), true;
      }
      if event.row.leaseToken == NO_TOKEN {
        return Failure("missing lease token"), true;
      }
      var broken: bool := *;
      if broken && !steady {
        return Failure("update claimed row"), false;
      }
      if event.id in rows && rows[event.id].status.Processing? && rows[event.id].leaseToken == event.row.leaseToken {
        rows := rows[event.id := Marked(rows[event.id], event.row.attempts, mark, reason)];
        var lost: bool := *;
        return if lost && !steady then Failure("update claimed row: connection lost") else Success(()), true;
      }
      return Failure("lease mismatch or row not claimed"), true;
    }

    /** markSent, markRetry or markDead for the row this relay has just delivered. */
    method MarkRow(event: OutboxEvent, mark: Mark, reason: string, ghost memory: Phase) returns (r: Result<()>)
      requires Valid() && PhaseOf(st, me) == memory && memory.Timed? && memory.batch != [] && memory.batch[0] == event
      requires mark == Decide(cfg, event.row.attempts, memory.result, memory.readAt) && reason == memory.result.Reason()
      modifies this`rows, this`st, this`run
      ensures Valid() && old(run) <= run
      ensures PhaseOf(st, me) == if r.Success? then AfterWrite(memory) else Idle
      ensures r.Success? ==> WriteBack(old(rows), event, mark, reason) == Result.Success(rows)
      ensures steady && WriteBack(old(rows), event, mark, reason).Success? ==> r.Success?
      ensures st.delivered == old(st.delivered)
    {
      var written, ran := UpdateClaimedRow(event, mark, reason);
      if ran {
        Take(Write(me, written.Success?));
      } else {
        Take(Crash(me));
      }
      r := written;
    }

    // --- claimPending ---

    /** One round of claimPending's loop: draw a token, try the candidate, keep it if won. */
    method ClaimNext(candidate: OutboxEvent, start: int, leaseUntil: int, claimed: seq<OutboxEvent>,
                     ghost memory: Phase)
      returns (r: Result<seq<OutboxEvent>>)
      requires Valid() && PhaseOf(st, me) == memory && leaseUntil == start + cfg.lease
      requires memory.Claiming? && memory.now == start && memory.claimed == claimed && |claimed| < cfg.batchSize
      requires memory.candidates != [] && memory.candidates[0] == candidate
      modifies this
      ensures Valid() && clock >= old(clock) && old(run) <= run
      ensures r.Failure? ==> PhaseOf(st, me) == Idle && !steady
      ensures r.Success? ==> PhaseOf(st, me) == memory.(candidates := memory.candidates[1..], claimed := r.value)
      ensures r.Success? ==> r.value == claimed || r.value == claimed + [LeasedEvent(candidate, leaseUntil, issued)]
      ensures solo ==> nextId == old(nextId) && st.delivered == old(st.delivered)
      ensures solo && r.Success? ==>
                && issued == old(issued) + 1
                && var (t, won) := TryClaim(old(rows), candidate.id, start, leaseUntil, issued);
                   && rows == t
                   && r.value == if won then claimed + [LeasedEvent(candidate, leaseUntil, issued)] else claimed
    {
      Others();
      var token := NewLeaseToken();
      var won, ran := TryClaimRow(candidate.id, start, leaseUntil, token);
      if ran {
        Take(Claim(me));
      }
      if won.Failure? {
        Take(Crash(me));
        return Failure("claim pending outbox rows: claim row");
      }
      r := Success(claimed);
      if won.value {
        r := Success(claimed + [candidate.(row := LeaseRow(candidate.row, leaseUntil, token))]);
      }
    }

    /** claimPending's loop over the candidates, until the batch is full. */
    method ClaimEach(candidates: seq<OutboxEvent>, start: int, leaseUntil: int, ghost seen: nat)
      returns (r: Result<seq<OutboxEvent>>, ghost rest: seq<OutboxEvent>)
      requires Valid() && PhaseOf(st, me) == Claiming(start, seen, candidates, []) && leaseUntil == start + cfg.lease
      requires InIdOrder(candidates)
      requires forall c :: c in candidates ==> c.id in rows && c.row == rows[c.id] && Claimable(c.row, start)
      modifies this
      ensures Valid() && clock >= old(clock) && old(run) <= run
      ensures r.Failure? ==> PhaseOf(st, me) == Idle && !steady
      ensures r.Success? ==>
                PhaseOf(st, me) == Claiming(start, seen, rest, r.value) && (rest == [] || |r.value| == cfg.batchSize)
      ensures r.Success? ==> |r.value| <= cfg.batchSize
      ensures solo ==> nextId == old(nextId) && st.delivered == old(st.delivered)
      ensures solo && r.Success? ==>
                var n := Min(|candidates|, cfg.batchSize);
                HasClaimed(old(rows), candidates, n, leaseUntil, old(issued) + 1, rows, issued, r.value)
    {
      ghost var before, first := rows, issued + 1;
      r := Success([]);
      var i := 0;
      while r.Success? && i < |candidates| && |r.value| < cfg.batchSize
        invariant 0 <= i <= |candidates| && (r.Success? ==> |r.value| <= cfg.batchSize) && (steady ==> r.Success?)
        invariant Valid() && clock >= old(clock) && old(run) <= run
        invariant PhaseOf(st, me) == if r.Success? then Claiming(start, seen, candidates[i..], r.value) else Idle
        invariant solo ==> nextId == old(nextId) && st.delivered == old(st.delivered)
        invariant solo && r.Success? ==> HasClaimed(before, candidates, i, leaseUntil, first, rows, issued, r.value)
      {
        if solo {
          SoloClaim(before, candidates, i, start, leaseUntil, first, rows, issued, r.value);
        }
        assert candidates[i..][1..] == candidates[i + 1..];
        r := ClaimNext(candidates[i], start, leaseUntil, r.value, Claiming(start, seen, candidates[i..], r.value));
        i := i + 1;
      }
      rest := candidates[i..];
    }

    /** The candidate query: four times as many rows as a batch holds. */
    method QueryCandidates(start: int) returns (r: Result<seq<OutboxEvent>>)
      requires Valid() && PhaseOf(st, me) == Started(start)
      modifies this`st, this`run
      ensures Valid() && old(run) <= run && st.delivered == old(st.delivered)
      ensures r.Failure? ==> PhaseOf(st, me) == Idle && !steady
      ensures r.Success? ==>
                && r.value == Candidates(rows, start, 1, nextId, 4 * cfg.batchSize)
                && PhaseOf(st, me) == Claiming(start, |st.log|, r.value, [])
                && InIdOrder(r.value)
                && forall c :: c in r.value ==> c.id in rows && c.row == rows[c.id] && Claimable(c.row, start)
    {
      var broken: bool := *;
      if broken && !steady {
        Take(Crash(me));
        return Failure("claim pending outbox rows: query candidates");
      }
      CandidatesAreClaimable(rows, start, 1, nextId, 4 * cfg.batchSize);
      r := Success(Candidates(rows, start, 1, nextId, 4 * cfg.batchSize));
      Take(Query(me));
    }

    /** claimPending returns: the batch is the relay's to deliver. */
    ghost method ReleaseBatch(start: int, claimed: seq<OutboxEvent>, memory: Phase)
      requires Valid() && PhaseOf(st, me) == memory
      requires memory.Claiming? && memory.now == start && memory.claimed == claimed
      requires memory.candidates == [] || |claimed| == cfg.batchSize
      modifies this`st, this`run
      ensures Valid() && old(run) <= run && st.delivered == old(st.delivered)
      ensures PhaseOf(st, me) == if claimed != [] then Delivering(start, claimed) else Idle
    {
      Take(Release(me));
    }

    /** ... from the clock reading on. */
    method ClaimStarted(start: int) returns (r: Result<seq<OutboxEvent>>)
      requires Valid() && PhaseOf(st, me) == Started(start)
      modifies this
      ensures Valid() && clock >= old(clock) && old(run) <= run
      ensures PhaseOf(st, me) == if r.Success? && r.value != [] then Delivering(start, r.value) else Idle
      ensures r.Success? ==> |r.value| <= cfg.batchSize
      ensures steady ==> r.Success?
      ensures solo ==> nextId == old(nextId) && st.delivered == old(st.delivered)
      ensures solo && r.Success? ==>
                (r.value, rows) == BatchOf(old(rows), start, nextId, cfg.batchSize, cfg.lease, old(issued) + 1)
    {
      var candidates := QueryCandidates(start);
      if candidates.Failure? {
        return Failure(candidates.error);
      }
      ghost var seen := |st.log|;
      ghost var rest;
      r, rest := ClaimEach(candidates.value, start, start + cfg.lease, seen);
      if r.Success? {
        ReleaseBatch(start, r.value, Claiming(start, seen, rest, r.value));
        if solo {
          SoloBatch(old(rows), start, nextId, cfg.batchSize, cfg.lease, old(issued) + 1, rows, issued, r.value);
        }
      }
    }

    method ClaimPending(batchSize: int, leaseDuration: int) returns (r: Result<seq<OutboxEvent>>, ghost now: int)
      requires Quiet()
      requires batchSize <= 0 || leaseDuration <= 0 || (batchSize == cfg.batchSize && leaseDuration == cfg.lease)
      modifies this
      ensures Valid() && old(clock) <= now <= clock && old(run) <= run
      ensures batchSize <= 0 ==> r == Success([])
      ensures batchSize > 0 && leaseDuration <= 0 ==> r.Failure?
      ensures batchSize <= 0 || leaseDuration <= 0 ==> rows == old(rows)
      ensures steady && leaseDuration > 0 ==> r.Success?
      ensures PhaseOf(st, me) == if r.Success? && r.value != [] then Delivering(now, r.value) else Idle
      ensures r.Success? ==> |r.value| <= Max(batchSize, 0)
      ensures solo ==> nextId == old(nextId) && st.delivered == old(st.delivered)
      ensures solo && r.Success? && batchSize > 0 ==>
                (r.value, rows) == BatchOf(old(rows), now, nextId, batchSize, leaseDuration, old(issued) + 1)
    {
      now := clock;
      if batchSize <= 0 {
        return Success([]), now;
      }
      if leaseDuration <= 0 {
        return Failure("claim pending outbox rows: invalid lease duration"), now;
      }
      Others();
      var start := Now();
      now := start;
      Take(Begin(me));
      Others();
      r := ClaimStarted(start);
    }
  }

  /** A smaller limit asks for a prefix. */
  lemma {:induction false} CandidatesPrefix(t: Table, now: int, from: int, until: int, small: nat, large: nat)
    requires small <= large
    ensures var all := Candidates(t, now, from, until, large);
            Candidates(t, now, from, until, small) == all[..Min(small, |all|)]
    decreases until - from
  {
    if small > 0 && from < until {
      if from in t && Claimable(t[from], now) {
        CandidatesPrefix(t, now, from + 1, until, small - 1, large - 1);
      } else {
        CandidatesPrefix(t, now, from + 1, until, small, large);
      }
    }
  }
}
