/** How long a row takes to die of retryable answers. */
module DyingTime {
  import opened Wrappers
  import opened Documents
  import opened Policy
  import opened Outbox
  import opened Protocol
  import opened ProtocolInvariant
  import opened Account
  import Budget

  // --- The first and the last failure since the last replay ---

  function LastRetry(log: seq<Event>, id: int): Option<Event> {
    if log == [] then None
    else
      var before, e := log[..|log| - 1], log[|log| - 1];
      if e == Replayed(id) then None else if Retry(e, id) then Some(e) else LastRetry(before, id)
  }

  /** When the clock was read for the first failure. */
  function FirstFailure(log: seq<Event>, id: int): Option<int> {
    if log == [] then None
    else
      var before, e := log[..|log| - 1], log[|log| - 1];
      if e == Replayed(id) then None
      else if FirstFailure(before, id).None? && Retry(e, id) then Some(e.readAt)
      else FirstFailure(before, id)
  }

  /** The failures of a row, counted and remembered, against the last statement about it: while the row is
      claimed, its last retry time has passed. */
  predicate RetryState(latest: Option<Event>, last: Option<Event>, first: Option<int>, n: nat, id: int) {
    && (last.Some? <==> n > 0) && (first.Some? <==> n > 0)
    && (last.Some? ==> Retry(last.value, id) && first.value <= last.value.mark.retryAt)
    && (latest.None? || latest.value.Replayed? ==> last.None?)
    && (latest.Some? && latest.value.Claimed? && last.Some? ==> last.value.mark.retryAt <= latest.value.now)
    && (latest.Some? && Retry(latest.value, id) ==> last == latest)
  }

  predicate Tracked(log: seq<Event>, id: int) {
    RetryState(Latest(log, id), LastRetry(log, id), FirstFailure(log, id), Retries(log, id), id)
  }

  lemma TrackersAfter(before: seq<Event>, e: Event, id: int)
    ensures LastRetry(before + [e], id) ==
            if e == Replayed(id) then None else if Retry(e, id) then Some(e) else LastRetry(before, id)
    ensures FirstFailure(before + [e], id) ==
            if e == Replayed(id) then None
            else if FirstFailure(before, id).None? && Retry(e, id) then Some(e.readAt)
            else FirstFailure(before, id)
  {
    assert (before + [e])[..|before|] == before;
  }

  /** A write-back reads the clock after its claim, and a retry time comes after that. */
  lemma RetryWaits(cfg: Config, before: seq<Event>, e: Event)
    requires cfg.Valid() && Justified(cfg, before, e) && e.Wrote?
    ensures Latest(before, e.id).Some? && Latest(before, e.id).value.Claimed?
    ensures Latest(before, e.id).value.now <= e.readAt
    ensures e.mark.MarkRetry? ==>
              e.mark.retryAt == e.readAt + RelayBackoff(cfg.pollInterval, e.attempts + 1) && e.readAt < e.mark.retryAt
  {
    BackoffBounds(cfg, e.attempts + 1, e.attempts + 1);
  }

  lemma TrackedAfter(cfg: Config, before: seq<Event>, e: Event, id: int)
    requires cfg.Normalized() && Tracked(before, id) && Follows(cfg, Latest(before, e.id), e)
    requires Latest(before, id).Some? ==> Latest(before, id).value.id == id
    requires Retry(e, id) ==> Latest(before, id).value.now <= e.readAt < e.mark.retryAt
    ensures Tracked(before + [e], id)
  {
    TrackersAfter(before, e, id);
    CountersAfter(before, e, id);
    LatestAfter(before, e, id);
    assert e.id == id && e.Replayed? ==> e == Replayed(id);
  }

  lemma {:induction false} AllTracked(cfg: Config, log: seq<Event>, id: int)
    requires cfg.Valid() && LogJustified(cfg, log)
    ensures Tracked(log, id)
    decreases |log|
  {
    if log != [] {
      var before, e := log[..|log| - 1], log[|log| - 1];
      LogShorter(cfg, log);
      AllTracked(cfg, before, id);
      JustifiedFollows(cfg, before, e);
      if e.Wrote? {
        RetryWaits(cfg, before, e);
      }
      TrackedAfter(cfg, before, e, id);
      assert log == before + [e];
    }
  }

  /** Until the next replay retry times never go back, and the first failure stays the first. */
  lemma {:induction false} LaterRetry(cfg: Config, log: seq<Event>, m: nat, n: nat, id: int)
    requires cfg.Valid() && LogJustified(cfg, log) && Since(log, id) <= m <= n <= |log|
    requires LastRetry(log[..m], id).Some?
    ensures LastRetry(log[..n], id).Some? && FirstFailure(log[..n], id) == FirstFailure(log[..m], id)
    ensures Retry(LastRetry(log[..m], id).value, id) && Retry(LastRetry(log[..n], id).value, id)
    ensures LastRetry(log[..m], id).value.mark.retryAt <= LastRetry(log[..n], id).value.mark.retryAt
    decreases n
  {
    LogPrefix(cfg, log, m);
    AllTracked(cfg, log[..m], id);
    if m < n {
      var before, e := log[..n - 1], log[n - 1];
      LaterRetry(cfg, log, m, n - 1, id);
      LogPrefix(cfg, log, n - 1);
      AllTracked(cfg, before, id);
      assert Justified(cfg, log[..n - 1], log[n - 1]);
      if e.Wrote? {
        RetryWaits(cfg, before, e);
      }
      TrackersAfter(before, e, id);
      assert log[..n] == before + [e];
    }
  }

  // --- A count of n attempts takes n delays ---

  /** The row has failed, and its last retry time lies at least the first n delays after the first failure. */
  ghost predicate TookTime(cfg: Config, log: seq<Event>, n: nat, id: int)
    requires cfg.Valid()
  {
    && LastRetry(log, id).Some? && Retry(LastRetry(log, id).value, id) && FirstFailure(log, id).Some?
    && LastRetry(log, id).value.mark.retryAt >= FirstFailure(log, id).value + TotalBackoff(cfg, n)
  }

  /** A relay that holds n attempts reads its clock at least the first n delays after the first failure. */
  lemma {:induction false} HeldCountTakesTime(cfg: Config, log: seq<Event>, i: nat)
    requires cfg.Valid() && LogJustified(cfg, log) && i < |log| && log[i].Wrote? && Fresh(log[..i + 1], log[i].id)
    ensures log[i].attempts > 0 ==> FirstFailure(log[..i], log[i].id).Some?
    ensures FirstFailure(log[..i], log[i].id).Some? ==>
              log[i].readAt >= FirstFailure(log[..i], log[i].id).value + TotalBackoff(cfg, log[i].attempts)
    decreases i, 1
  {
    var id, upto := log[i].id, log[..i + 1];
    LogPrefix(cfg, log, i + 1);
    LogPrefix(cfg, log, i);
    SinceOfPrefix(upto, i, id);
    assert upto[..i] == log[..i] && upto[i] == log[i];
    assert Justified(cfg, log[..i], log[i]);
    RetryWaits(cfg, log[..i], log[i]);
    AllTracked(cfg, log[..i], id);
    assert ReadSince(upto, i);
    var seen := CountReadAt(cfg, upto, i);
    assert upto[..seen] == log[..seen] && log[..i][..seen] == log[..seen] && log[..i][..i] == log[..i];
    if log[i].attempts > 0 {
      LogPrefix(cfg, log, seen);
      FreshPrefix(upto, seen, id);
      CountTakesTime(cfg, log[..seen], id);
      LaterRetry(cfg, log[..i], seen, i, id);
    }
  }

  /** A row that has not died and has n > 0 attempts took that time. */
  lemma {:induction false} CountTakesTime(cfg: Config, log: seq<Event>, id: int)
    requires cfg.Valid() && LogJustified(cfg, log) && Fresh(log, id)
    requires !DeadOrRemoved(Latest(log, id)) && AttemptsOf(log, id) > 0
    ensures TookTime(cfg, log, AttemptsOf(log, id), id)
    decreases |log|, 0
  {
    var n := |log| - 1;
    var before, e := log[..n], log[n];
    assert log == before + [e] && log[..n + 1] == log;
    LogShorter(cfg, log);
    JustifiedFollows(cfg, before, e);
    LatestAfter(before, e, id);
    AttemptsAfter(before, e, id);
    TrackersAfter(before, e, id);
    assert e.id == id && e.Replayed? ==> e == Replayed(id);
    if Retry(e, id) {
      HeldCountTakesTime(cfg, log, n);
      RetryWaits(cfg, before, e);
      var n := e.attempts + 1;
      assert TotalBackoff(cfg, n) == TotalBackoff(cfg, n - 1) + RelayBackoff(cfg.pollInterval, n);
    } else {
      FreshPrefix(log, n, id);
      CountTakesTime(cfg, before, id);
    }
  }

  /** In every run, a row that has not died and has n attempts took at least its first n delays since it
      first failed, provided no count read before its last replay was written after it. */
  lemma AttemptsTakeTime(cfg: Config, s: State, id: int)
    requires cfg.Valid() && Reachable(cfg, s) && id in s.table && !s.table[id].status.Dead? && Fresh(s.log, id)
    ensures s.table[id].attempts > 0 ==> TookTime(cfg, s.log, s.table[id].attempts, id)
  {
    ReachableInv(cfg, s);
    assert RowMatches(cfg, s.table[id], Latest(s.log, id));
    if s.table[id].attempts > 0 {
      CountTakesTime(cfg, s.log, id);
    }
  }

  /** A row killed by a retryable answer has spent at least the sum of MaxAttempts delays between its first
      failure since its last replay and its death: poll*(2^M - 1) up to nine attempts, poll*(511 + 256*(M - 9))
      beyond. */
  lemma DeathTakesTime(cfg: Config, s: State, i: nat)
    requires cfg.Valid() && Reachable(cfg, s) && i < |s.log| && s.log[i].Wrote?
    requires s.log[i].mark.MarkDead? && s.log[i].result.RetryableAnswer() && Fresh(s.log[..i + 1], s.log[i].id)
    ensures FirstFailure(s.log[..i], s.log[i].id).Some?
    ensures s.log[i].readAt >=
            FirstFailure(s.log[..i], s.log[i].id).value + cfg.pollInterval * DelayUnits(cfg.maxAttempts)
  {
    ReachableInv(cfg, s);
    Budget.CausesOfDeath(cfg, s, i);
    HeldCountTakesTime(cfg, s.log, i);
    TotalBackoffMonotone(cfg, cfg.maxAttempts, s.log[i].attempts);
    TotalBackoffClosedForm(cfg, cfg.maxAttempts);
  }

  /** That takes no condition on a row that was never replayed. */
  lemma FirstDeathTakesTime(cfg: Config, s: State, i: nat)
    requires cfg.Valid() && Reachable(cfg, s) && i < |s.log| && s.log[i].Wrote?
    requires s.log[i].mark.MarkDead? && s.log[i].result.RetryableAnswer() && NeverReplayed(s.log[..i], s.log[i].id)
    ensures FirstFailure(s.log[..i], s.log[i].id).Some?
    ensures s.log[i].readAt >=
            FirstFailure(s.log[..i], s.log[i].id).value + cfg.pollInterval * DelayUnits(cfg.maxAttempts)
  {
    ReachableInv(cfg, s);
    LogPrefix(cfg, s.log, i + 1);
    assert forall k :: 0 <= k < i ==> s.log[..i + 1][k] == s.log[..i][k];
    FreshWhenNeverReplayed(cfg, s.log[..i + 1], s.log[i].id);
    DeathTakesTime(cfg, s, i);
  }

  // --- When no count is short, every retry takes its delay ---

  /** Unless some count was short, the n-th retry itself comes at least the first n delays after the first
      failure, whatever counts were carried over from before a replay. */
  lemma {:induction false} RetriesTakeTime(cfg: Config, log: seq<Event>, id: int)
    requires cfg.Valid() && LogJustified(cfg, log) && NoneShort(log, id)
    ensures Retries(log, id) > 0 ==> TookTime(cfg, log, Retries(log, id), id)
    decreases |log|
  {
    if log != [] && log[|log| - 1] != Replayed(id) {
      var n := |log| - 1;
      var before, e := log[..n], log[n];
      LogShorter(cfg, log);
      NoneShortPrefix(log, n, id);
      RetriesTakeTime(cfg, before, id);
      assert log == before + [e];
      TrackersAfter(before, e, id);
      CountersAfter(before, e, id);
      if Retry(e, id) {
        assert ShortBy(log, n) <= 0;
        CountsCover(cfg, before, id);
        OneMoreDelay(cfg, before, e, id);
      }
    }
  }

  lemma OneMoreDelay(cfg: Config, before: seq<Event>, e: Event, id: int)
    requires cfg.Valid() && LogJustified(cfg, before) && Justified(cfg, before, e) && Retry(e, id)
    requires Retries(before, id) <= e.attempts
    requires Retries(before, id) > 0 ==> TookTime(cfg, before, Retries(before, id), id)
    ensures TookTime(cfg, before + [e], Retries(before, id) + 1, id)
  {
    var n := Retries(before, id);
    TrackersAfter(before, e, id);
    RetryWaits(cfg, before, e);
    AllTracked(cfg, before, id);
    BackoffBounds(cfg, n + 1, e.attempts + 1);
    assert TotalBackoff(cfg, n + 1) == TotalBackoff(cfg, n) + RelayBackoff(cfg.pollInterval, n + 1);
  }
}
