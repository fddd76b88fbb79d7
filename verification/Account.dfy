/** What the attempts column counts, what it loses, and when it is right. */
module Account {
  import opened Wrappers
  import opened Documents
  import opened Policy
  import opened Outbox
  import opened Protocol
  import opened ProtocolInvariant

  // --- Counting what the log says about one row since it was inserted or last replayed ---

  predicate Retry(e: Event, id: int) {
    e.Wrote? && e.id == id && e.mark.MarkRetry?
  }

  function Retries(log: seq<Event>, id: int): nat {
    if log == [] then 0
    else
      var before, e := log[..|log| - 1], log[|log| - 1];
      if e == Replayed(id) then 0 else Retries(before, id) + if Retry(e, id) then 1 else 0
  }

  /** Retries caused by an HTTP answer rather than by a transport failure. */
  function AnswerRetries(log: seq<Event>, id: int): (n: nat)
    ensures n <= Retries(log, id)
  {
    if log == [] then 0
    else
      var before, e := log[..|log| - 1], log[|log| - 1];
      if e == Replayed(id) then 0
      else AnswerRetries(before, id) + if Retry(e, id) && !e.result.TransportFailure() then 1 else 0
  }

  function TransportRetries(log: seq<Event>, id: int): nat {
    Retries(log, id) - AnswerRetries(log, id)
  }

  /** Where the stretch since the row's last replay begins. */
  function Since(log: seq<Event>, id: int): (from: nat)
    ensures from <= |log| && (from > 0 ==> log[from - 1] == Replayed(id))
    ensures forall k :: from <= k < |log| ==> log[k] != Replayed(id)
  {
    if log == [] then 0
    else if log[|log| - 1] == Replayed(id) then |log|
    else Since(log[..|log| - 1], id)
  }

  lemma SinceOfPrefix(log: seq<Event>, n: nat, id: int)
    requires Since(log, id) <= n <= |log|
    ensures Since(log[..n], id) == Since(log, id)
  {
    var from, from' := Since(log, id), Since(log[..n], id);
    assert from > 0 ==> log[..n][from - 1] == log[from - 1];
    assert from' > 0 ==> log[..n][from' - 1] == log[from' - 1];
  }

  predicate DeadOrRemoved(latest: Option<Event>) {
    latest.Some? && (latest.value.Removed? || (latest.value.Wrote? && latest.value.mark.MarkDead?))
  }

  // --- What the attempts column loses ---

  /** How far the count from which log[i] was written lay below the table's. */
  function ShortBy(log: seq<Event>, i: nat): int
    requires i < |log| && log[i].Wrote?
  {
    AttemptsOf(log[..i], log[i].id) - log[i].attempts
  }

  /** ... added up over the row's retries. */
  function Lost(log: seq<Event>, id: int): int {
    if log == [] then 0
    else
      var before, e := log[..|log| - 1], log[|log| - 1];
      if e == Replayed(id) then 0
      else Lost(before, id) + if Retry(e, id) then AttemptsOf(before, id) - e.attempts else 0
  }

  /** What the row has lost by the time log[i] is written, and with it. */
  function LostBy(log: seq<Event>, i: nat): int
    requires i < |log| && log[i].Wrote?
  {
    Lost(log[..i], log[i].id) + ShortBy(log, i)
  }

  lemma CountersAfter(before: seq<Event>, e: Event, id: int)
    ensures var log := before + [e];
            if e == Replayed(id) then
              Retries(log, id) == AnswerRetries(log, id) == Lost(log, id) == 0
            else
              && Retries(log, id) == Retries(before, id) + (if Retry(e, id) then 1 else 0)
              && AnswerRetries(log, id) ==
                 AnswerRetries(before, id) + (if Retry(e, id) && !e.result.TransportFailure() then 1 else 0)
              && Lost(log, id) == Lost(before, id) + if Retry(e, id) then AttemptsOf(before, id) - e.attempts else 0
  {
    assert (before + [e])[..|before|] == before;
  }

  ghost predicate Accounts(log: seq<Event>, id: int) {
    !DeadOrRemoved(Latest(log, id)) ==> AttemptsOf(log, id) == Retries(log, id) - Lost(log, id)
  }

  lemma AccountsAfter(cfg: Config, before: seq<Event>, e: Event, id: int)
    requires Accounts(before, id) && Follows(cfg, Latest(before, e.id), e)
    ensures Accounts(before + [e], id)
  {
    CountersAfter(before, e, id);
    AttemptsAfter(before, e, id);
    LatestAfter(before, e, id);
    assert e.id == id && e.Replayed? ==> e == Replayed(id);
  }

  /** In every run, the attempts of a row that has not died are its retries less what they lost. */
  lemma {:induction false} AttemptsAccount(cfg: Config, log: seq<Event>, id: int)
    requires LogJustified(cfg, log)
    ensures Accounts(log, id)
    decreases |log|
  {
    if log != [] {
      var before, e := log[..|log| - 1], log[|log| - 1];
      LogShorter(cfg, log);
      AttemptsAccount(cfg, before, id);
      JustifiedFollows(cfg, before, e);
      AccountsAfter(cfg, before, e, id);
      assert log == before + [e];
    }
  }

  /** ... and so are those a relay holds when it writes back. */
  lemma HeldCount(cfg: Config, log: seq<Event>, i: nat)
    requires LogJustified(cfg, log) && i < |log| && log[i].Wrote?
    ensures log[i].attempts == Retries(log[..i], log[i].id) - LostBy(log, i)
  {
    LogPrefix(cfg, log, i);
    AttemptsAccount(cfg, log[..i], log[i].id);
    assert Justified(cfg, log[..i], log[i]);
    JustifiedFollows(cfg, log[..i], log[i]);
  }

  // --- Counts are lost under overtaken claims only ---

  /** log[i] was written from the count of an earlier time, after which another retry of the row was
      written whose retry time was due when this one's claim was made. */
  ghost predicate FromOvertaken(log: seq<Event>, i: nat)
    requires i < |log| && log[i].Wrote?
  {
    var id, claim := log[i].id, Latest(log[..i], log[i].id);
    && claim.Some? && claim.value.Claimed?
    && exists seen: nat :: Dated(log[..i], seen, id, log[i].attempts) && Overtaken(log[..i], seen, id, claim.value.now)
  }

  lemma ShortIsOvertaken(cfg: Config, log: seq<Event>, i: nat)
    requires LogJustified(cfg, log) && i < |log| && log[i].Wrote? && ShortBy(log, i) > 0
    ensures FromOvertaken(log, i)
  {
    var before, e := log[..i], log[i];
    assert Justified(cfg, before, e);
    var now := Latest(before, e.id).value.now;
    var seen: nat :| CarriesFrom(before, seen, e.id, e.attempts, AttemptsOf(before, e.id), now);
  }

  /** Some retry since the last replay was written from an overtaken count, before position `n`. */
  ghost predicate SomeOvertaken(log: seq<Event>, id: int, n: nat) {
    exists k :: Since(log, id) <= k < n && k < |log| && Retry(log[k], id) && FromOvertaken(log, k)
  }

  lemma {:induction false} LossIsOvertaken(cfg: Config, log: seq<Event>, id: int, n: nat)
    requires LogJustified(cfg, log) && Since(log, id) <= n <= |log| && Lost(log[..n], id) > 0
    ensures SomeOvertaken(log, id, n)
    decreases n
  {
    if n > Since(log, id) {
      var e := log[n - 1];
      assert log[..n][..n - 1] == log[..n - 1];
      if Retry(e, id) && ShortBy(log, n - 1) > 0 {
        ShortIsOvertaken(cfg, log, n - 1);
      } else {
        LossIsOvertaken(cfg, log, id, n - 1);
        var k :| Since(log, id) <= k < n - 1 && k < |log| && Retry(log[k], id) && FromOvertaken(log, k);
      }
    }
  }

  /** Every retry of the row reached the database before its retry time was due. */
  ghost predicate Punctual(log: seq<Event>, id: int) {
    forall i :: 0 <= i < |log| && Retry(log[i], id) ==> log[i].at < log[i].mark.retryAt
  }

  lemma PunctualNotOvertaken(log: seq<Event>, id: int)
    requires Punctual(log, id)
    ensures forall i :: 0 <= i < |log| && log[i].Wrote? && log[i].id == id ==> !FromOvertaken(log, i)
  {
    forall i | 0 <= i < |log| && log[i].Wrote? && log[i].id == id ensures !FromOvertaken(log, i) {
      assert forall k :: 0 <= k < i ==> log[..i][k] == log[k];
    }
  }

  // --- Counts read since the last replay ---

  /** The count from which log[i] was written was read since the row's last replay. */
  ghost predicate ReadSince(log: seq<Event>, i: nat)
    requires i < |log| && log[i].Wrote?
  {
    var before, e := log[..i], log[i];
    && Latest(before, e.id).Some? && Latest(before, e.id).value.Claimed?
    && exists seen: nat ::
         && Since(before, e.id) <= seen
         && CarriesFrom(before, seen, e.id, e.attempts, AttemptsOf(before, e.id), Latest(before, e.id).value.now)
  }

  /** No write-back since the last replay carries a count read before it. */
  ghost predicate Fresh(log: seq<Event>, id: int) {
    forall i {:trigger ReadSince(log, i)} ::
      Since(log, id) <= i < |log| && log[i].Wrote? && log[i].id == id ==> ReadSince(log, i)
  }

  lemma FreshWhenNeverReplayed(cfg: Config, log: seq<Event>, id: int)
    requires LogJustified(cfg, log) && NeverReplayed(log, id)
    ensures Fresh(log, id)
  {
    forall i | Since(log, id) <= i < |log| && log[i].Wrote? && log[i].id == id ensures ReadSince(log, i) {
      SinceOfPrefix(log, i, id);
      assert Justified(cfg, log[..i], log[i]);
    }
  }

  lemma FreshPrefix(log: seq<Event>, n: nat, id: int)
    requires Fresh(log, id) && Since(log, id) <= n <= |log|
    ensures Fresh(log[..n], id)
  {
    SinceOfPrefix(log, n, id);
    forall i | Since(log, id) <= i < n && log[i].Wrote? && log[i].id == id ensures ReadSince(log[..n], i) {
      assert log[..n][..i] == log[..i] && log[..n][i] == log[i];
      assert ReadSince(log, i);
    }
  }

  lemma {:induction false} RetriesGrow(log: seq<Event>, m: nat, n: nat, id: int)
    requires Since(log, id) <= m <= n <= |log|
    ensures Retries(log[..m], id) <= Retries(log[..n], id)
    ensures (exists k :: m <= k < n && Retry(log[k], id)) ==> Retries(log[..m], id) < Retries(log[..n], id)
    decreases n
  {
    if m < n {
      RetriesGrow(log, m, n - 1, id);
      assert log[..n][..n - 1] == log[..n - 1] && log[..n][n - 1] == log[n - 1];
    }
  }

  /** When the count from which log[i] was written was the table's: it is so still, or retries were written
      since and the claim was overtaken. */
  lemma CountReadAt(cfg: Config, log: seq<Event>, i: nat) returns (seen: nat)
    requires LogJustified(cfg, log) && i < |log| && log[i].Wrote? && ReadSince(log, i)
    ensures Since(log[..i], log[i].id) <= seen <= i && log[i].attempts == AttemptsOf(log[..seen], log[i].id)
    ensures !DeadOrRemoved(Latest(log[..seen], log[i].id))
    ensures ShortBy(log, i) != 0 ==>
              FromOvertaken(log, i) && Retries(log[..seen], log[i].id) < Retries(log[..i], log[i].id)
  {
    var before, e := log[..i], log[i];
    var now := Latest(before, e.id).value.now;
    if ShortBy(log, i) == 0 {
      seen := i;
    } else {
      seen :| Since(before, e.id) <= seen && CarriesFrom(before, seen, e.id, e.attempts, AttemptsOf(before, e.id), now);
      assert !ReplayedSince(before, seen, e.id);
      var k :| seen <= k < |before| && before[k].Wrote? && before[k].id == e.id
               && before[k].mark.MarkRetry? && before[k].mark.retryAt <= now <= before[k].at;
      LogPrefix(cfg, log, i);
      OpenBefore(cfg, before, e.id, seen, k);
      assert before[..seen] == log[..seen] && before[..i] == before;
      RetriesGrow(before, seen, i, e.id);
    }
  }

  // --- Exactly when the count is right ---

  /** Every retry since the last replay was written from the count the table held then. */
  ghost predicate Current(log: seq<Event>, id: int) {
    forall i :: Since(log, id) <= i < |log| && Retry(log[i], id) ==> ShortBy(log, i) == 0
  }

  lemma ShortStays(before: seq<Event>, e: Event, i: nat)
    requires i < |before| && before[i].Wrote?
    ensures (before + [e])[i] == before[i] && ShortBy(before + [e], i) == ShortBy(before, i)
  {
    assert (before + [e])[..i] == before[..i];
  }

  lemma CurrentAfter(before: seq<Event>, e: Event, id: int)
    requires e != Replayed(id)
    ensures Current(before + [e], id) <==>
            Current(before, id) && (Retry(e, id) ==> e.attempts == AttemptsOf(before, id))
  {
    var log := before + [e];
    assert log[..|before|] == before && log[|before|] == e && Since(log, id) == Since(before, id);
    if Current(log, id) {
      forall i | Since(before, id) <= i < |before| && Retry(before[i], id) ensures ShortBy(before, i) == 0 {
        ShortStays(before, e, i);
      }
      assert Retry(e, id) ==> ShortBy(log, |before|) == 0;
    } else {
      var i :| Since(log, id) <= i < |log| && Retry(log[i], id) && ShortBy(log, i) != 0;
      if i < |before| {
        ShortStays(before, e, i);
      }
    }
  }

  lemma {:induction false} NothingLost(log: seq<Event>, id: int)
    requires Current(log, id)
    ensures Lost(log, id) == 0
    decreases |log|
  {
    if log != [] {
      var before, e := log[..|log| - 1], log[|log| - 1];
      assert log == before + [e];
      if e != Replayed(id) {
        CurrentAfter(before, e, id);
        NothingLost(before, id);
      }
    }
  }

  lemma LossAfterStale(cfg: Config, log: seq<Event>, seen: nat, id: int)
    requires LogJustified(cfg, log) && log != [] && Retry(log[|log| - 1], id) && seen < |log|
    requires log[|log| - 1].attempts == AttemptsOf(log[..seen], id)
    requires !DeadOrRemoved(Latest(log[..seen], id)) && Lost(log[..seen], id) >= 0
    requires Retries(log[..seen], id) < Retries(log[..|log| - 1], id)
    ensures Lost(log, id) > 0
  {
    var before, e := log[..|log| - 1], log[|log| - 1];
    LogPrefix(cfg, log, seen);
    AttemptsAccount(cfg, log[..seen], id);
    AttemptsAccount(cfg, log, id);
    assert log == before + [e];
    LatestAfter(before, e, id);
    AttemptsAfter(before, e, id);
    CountersAfter(before, e, id);
  }

  /** While no count is read before a replay and written after it, counts are only ever lost, and none is
      lost if and only if every retry was written from the count the table held. */
  lemma {:induction false} LossIff(cfg: Config, log: seq<Event>, id: int)
    requires LogJustified(cfg, log) && Fresh(log, id)
    ensures Lost(log, id) >= 0
    ensures Lost(log, id) == 0 <==> Current(log, id)
    decreases |log|, 1
  {
    if log != [] && log[|log| - 1] != Replayed(id) {
      var n := |log| - 1;
      LogShorter(cfg, log);
      FreshPrefix(log, n, id);
      LossIff(cfg, log[..n], id);
      if Retry(log[n], id) && ShortBy(log, n) != 0 {
        StaleLoss(cfg, log, id);
      }
      assert log == log[..n] + [log[n]];
      LossAfter(log[..n], log[n], id);
    }
  }

  lemma LossAfter(before: seq<Event>, e: Event, id: int)
    requires e != Replayed(id) && Lost(before, id) >= 0 && (Lost(before, id) == 0 <==> Current(before, id))
    requires Retry(e, id) && e.attempts != AttemptsOf(before, id) ==> Lost(before + [e], id) > 0
    ensures Lost(before + [e], id) >= 0
    ensures Lost(before + [e], id) == 0 <==> Current(before + [e], id)
  {
    CurrentAfter(before, e, id);
    CountersAfter(before, e, id);
  }

  lemma {:induction false} StaleLoss(cfg: Config, log: seq<Event>, id: int)
    requires LogJustified(cfg, log) && Fresh(log, id)
    requires log != [] && Retry(log[|log| - 1], id) && ShortBy(log, |log| - 1) != 0
    ensures Lost(log, id) > 0
    decreases |log|, 0
  {
    var n := |log| - 1;
    var seen := CountReadAt(cfg, log, n);
    SinceOfPrefix(log, n, id);
    LogPrefix(cfg, log, seen);
    FreshPrefix(log, seen, id);
    LossIff(cfg, log[..seen], id);
    LossAfterStale(cfg, log, seen, id);
  }

  /** The attempts of a row that has not died equal its retries since its last replay if and only if each
      was written from the count the table held; any other was written under an overtaken claim. */
  lemma AttemptsAreRetriesIff(cfg: Config, s: State, id: int)
    requires cfg.Normalized() && Reachable(cfg, s) && id in s.table && !s.table[id].status.Dead? && Fresh(s.log, id)
    ensures s.table[id].attempts <= Retries(s.log, id)
    ensures s.table[id].attempts == Retries(s.log, id) <==> Current(s.log, id)
    ensures forall i :: Since(s.log, id) <= i < |s.log| && Retry(s.log[i], id) && ShortBy(s.log, i) != 0 ==>
              FromOvertaken(s.log, i)
  {
    ReachableInv(cfg, s);
    assert RowMatches(cfg, s.table[id], Latest(s.log, id));
    AttemptsAccount(cfg, s.log, id);
    LossIff(cfg, s.log, id);
    forall i | Since(s.log, id) <= i < |s.log| && Retry(s.log[i], id) && ShortBy(s.log, i) != 0
      ensures FromOvertaken(s.log, i)
    {
      var seen := CountReadAt(cfg, s.log, i);
    }
  }

  // --- Counts that are never short ---

  /** No write-back since the last replay was made from a count below the table's. */
  ghost predicate NoneShort(log: seq<Event>, id: int) {
    forall i :: Since(log, id) <= i < |log| && log[i].Wrote? && log[i].id == id ==> ShortBy(log, i) <= 0
  }

  lemma PunctualIsNotShort(cfg: Config, log: seq<Event>, id: int)
    requires LogJustified(cfg, log) && Punctual(log, id)
    ensures NoneShort(log, id)
  {
    PunctualNotOvertaken(log, id);
    forall i | Since(log, id) <= i < |log| && log[i].Wrote? && log[i].id == id ensures ShortBy(log, i) <= 0 {
      if ShortBy(log, i) > 0 {
        ShortIsOvertaken(cfg, log, i);
      }
    }
  }

  lemma NoneShortPrefix(log: seq<Event>, n: nat, id: int)
    requires NoneShort(log, id) && Since(log, id) <= n <= |log|
    ensures NoneShort(log[..n], id)
  {
    SinceOfPrefix(log, n, id);
    forall i | Since(log, id) <= i < n && log[i].Wrote? && log[i].id == id ensures ShortBy(log[..n], i) <= 0 {
      assert log[..n][..i] == log[..i] && log[..n][i] == log[i];
      assert ShortBy(log, i) <= 0;
    }
  }

  /** Then the attempt count does not fall behind the retries. */
  lemma {:induction false} CountsCover(cfg: Config, log: seq<Event>, id: int)
    requires LogJustified(cfg, log) && NoneShort(log, id)
    ensures Retries(log, id) <= AttemptsOf(log, id)
    decreases |log|
  {
    if log != [] && log[|log| - 1] != Replayed(id) {
      var n := |log| - 1;
      var before, e := log[..n], log[n];
      LogShorter(cfg, log);
      NoneShortPrefix(log, n, id);
      CountsCover(cfg, before, id);
      assert log == before + [e];
      CountersAfter(before, e, id);
      AttemptsAfter(before, e, id);
      assert e.Wrote? && e.id == id ==> ShortBy(log, n) <= 0;
      assert e.id == id && e.Replayed? ==> e == Replayed(id);
    }
  }
}
