/** The retry budget over whole runs. */
module Budget {
  import opened Wrappers
  import opened Documents
  import opened Policy
  import opened Outbox
  import opened Protocol
  import opened ProtocolInvariant
  import opened Account

  // --- The budget ---

  /** Where the row got its answer retry number n + 1. */
  lemma {:induction false} AnswerRetryAt(log: seq<Event>, id: int, n: nat) returns (i: nat)
    requires AnswerRetries(log, id) > n
    ensures Since(log, id) <= i < |log| && Retry(log[i], id) && !log[i].result.TransportFailure()
    ensures AnswerRetries(log[..i], id) == n
    decreases |log|
  {
    var before := log[..|log| - 1];
    if AnswerRetries(before, id) > n {
      i := AnswerRetryAt(before, id, n);
      assert before[..i] == log[..i];
    } else {
      i := |before|;
    }
  }

  lemma {:induction false} AnswerRetriesGrow(log: seq<Event>, i: nat, id: int)
    requires Since(log, id) <= i <= |log|
    ensures AnswerRetries(log[..i], id) <= AnswerRetries(log, id)
    decreases |log|
  {
    if i == |log| {
      assert log[..i] == log;
    } else {
      var before := log[..|log| - 1];
      AnswerRetriesGrow(before, i, id);
      assert before[..i] == log[..i];
    }
  }

  /** A retryable answer to a row all of whose MaxAttempts answers are used up, and which has lost more
      counts than it has had transport failures. */
  ghost predicate OneTooMany(cfg: Config, log: seq<Event>, id: int, i: nat)
    requires i < |log|
  {
    && log[i].Wrote? && log[i].id == id && log[i].result.RetryableAnswer()
    && AnswerRetries(log[..i], id) == cfg.maxAttempts
    && LostBy(log, i) > TransportRetries(log[..i], id)
  }

  lemma ExceededAt(cfg: Config, log: seq<Event>, id: int) returns (i: nat)
    requires LogJustified(cfg, log) && AnswerRetries(log, id) > cfg.maxAttempts > 0
    ensures Since(log, id) <= i < |log| && OneTooMany(cfg, log, id, i)
  {
    i := AnswerRetryAt(log, id, cfg.maxAttempts);
    RetriedWhen(cfg, log, i);
  }

  lemma TooManyExceeds(cfg: Config, log: seq<Event>, id: int, i: nat)
    requires LogJustified(cfg, log) && Since(log, id) <= i < |log| && OneTooMany(cfg, log, id, i)
    ensures AnswerRetries(log, id) > cfg.maxAttempts
  {
    TooManyIsRetried(cfg, log, id, i);
    CountersAfter(log[..i], log[i], id);
    assert log[..i + 1] == log[..i] + [log[i]];
    AnswerRetriesGrow(log, i + 1, id);
  }

  lemma TooManyIsRetried(cfg: Config, log: seq<Event>, id: int, i: nat)
    requires LogJustified(cfg, log) && i < |log| && OneTooMany(cfg, log, id, i)
    ensures Retry(log[i], id) && !log[i].result.TransportFailure()
  {
    RetriedWhen(cfg, log, i);
  }

  /** In every run, replays included: answers send a row back to pending more than MaxAttempts times since
      its last replay if and only if one of them met it with its answers used up and more counts lost than
      it had had transport failures. */
  lemma BudgetExceededIff(cfg: Config, s: State, id: int)
    requires cfg.Normalized() && Reachable(cfg, s)
    ensures AnswerRetries(s.log, id) > cfg.maxAttempts
        <==> exists i :: Since(s.log, id) <= i < |s.log| && OneTooMany(cfg, s.log, id, i)
  {
    ReachableInv(cfg, s);
    if AnswerRetries(s.log, id) > cfg.maxAttempts {
      var i := ExceededAt(cfg, s.log, id);
    }
    if i :| Since(s.log, id) <= i < |s.log| && OneTooMany(cfg, s.log, id, i) {
      TooManyExceeds(cfg, s.log, id, i);
    }
  }

  /** A retryable answer retries the row while its retries, less what it has lost, are below MaxAttempts. */
  lemma RetriedWhen(cfg: Config, log: seq<Event>, i: nat)
    requires LogJustified(cfg, log) && i < |log| && log[i].Wrote?
    ensures log[i].result.RetryableAnswer() && !log[i].result.TransportFailure() ==>
              (log[i].mark.MarkRetry? <==> Retries(log[..i], log[i].id) < cfg.maxAttempts + LostBy(log, i))
    ensures log[i].mark.MarkRetry? && !log[i].result.TransportFailure() ==> log[i].result.RetryableAnswer()
  {
    HeldCount(cfg, log, i);
    assert Justified(cfg, log[..i], log[i]);
  }

  /** The budget is exceeded only if some retry since the last replay was written under a claim that a
      retry already due had overtaken. */
  lemma RetryBudget(cfg: Config, s: State, id: int)
    requires cfg.Normalized() && Reachable(cfg, s)
    ensures AnswerRetries(s.log, id) <= cfg.maxAttempts || SomeOvertaken(s.log, id, |s.log|)
  {
    ReachableInv(cfg, s);
    if AnswerRetries(s.log, id) > cfg.maxAttempts {
      var i := AnswerRetryAt(s.log, id, cfg.maxAttempts);
      RetriedWhen(cfg, s.log, i);
      if ShortBy(s.log, i) > 0 {
        ShortIsOvertaken(cfg, s.log, i);
      } else {
        LossIsOvertaken(cfg, s.log, id, i);
        var k :| Since(s.log, id) <= k < i && Retry(s.log[k], id) && FromOvertaken(s.log, k);
      }
    }
  }

  /** In particular the budget is kept when retries are punctual. */
  lemma PunctualRetryBudget(cfg: Config, s: State, id: int)
    requires cfg.Normalized() && Reachable(cfg, s) && Punctual(s.log, id)
    ensures AnswerRetries(s.log, id) <= cfg.maxAttempts
    ensures id in s.table ==> Retries(s.log, id) <= s.table[id].attempts
  {
    ReachableInv(cfg, s);
    PunctualNotOvertaken(s.log, id);
    RetryBudget(cfg, s, id);
    PunctualIsNotShort(cfg, s.log, id);
    CountsCover(cfg, s.log, id);
  }

  /** A count read since the last replay is never ahead of the retries. */
  lemma HeldNotAhead(cfg: Config, log: seq<Event>, i: nat)
    requires LogJustified(cfg, log) && i < |log| && log[i].Wrote? && Fresh(log[..i + 1], log[i].id)
    ensures LostBy(log, i) >= 0
  {
    var id, upto := log[i].id, log[..i + 1];
    LogPrefix(cfg, log, i + 1);
    SinceOfPrefix(upto, i, id);
    assert upto[..i] == log[..i] && upto[i] == log[i] && ReadSince(upto, i);
    var seen := CountReadAt(cfg, upto, i);
    LogPrefix(cfg, upto, seen);
    FreshPrefix(upto, seen, id);
    LossIff(cfg, upto[..seen], id);
    AttemptsAccount(cfg, upto[..seen], id);
    RetriesGrow(upto, seen, i, id);
    HeldCount(cfg, log, i);
  }

  lemma PunctualIsCurrent(cfg: Config, log: seq<Event>, id: int, i: nat)
    requires LogJustified(cfg, log) && Punctual(log, id) && NeverReplayed(log, id)
    requires i < |log| && log[i].Wrote? && log[i].id == id
    ensures LostBy(log, i) == 0
  {
    FreshWhenNeverReplayed(cfg, log, id);
    PunctualNotOvertaken(log, id);
    LogPrefix(cfg, log, i);
    FreshPrefix(log, i, id);
    SinceOfPrefix(log, i, id);
    var seen := CountReadAt(cfg, log, i);
    forall k | 0 <= k < i && Retry(log[k], id) ensures ShortBy(log[..i], k) == 0 {
      assert log[..i][..k] == log[..k] && log[..i][k] == log[k];
      var at := CountReadAt(cfg, log, k);
    }
    NothingLost(log[..i], id);
  }

  /** A retryable answer kills a row exactly when its failures of both kinds, since its last replay, number
      MaxAttempts and as many more as it has lost. It has lost some only to overtaken claims, and gained some
      only by a count read before that replay. */
  lemma KilledExactlyWhen(cfg: Config, s: State, i: nat)
    requires cfg.Normalized() && Reachable(cfg, s) && i < |s.log| && s.log[i].Wrote?
    requires s.log[i].result.RetryableAnswer()
    ensures s.log[i].mark.MarkDead? <==> Retries(s.log[..i], s.log[i].id) >= cfg.maxAttempts + LostBy(s.log, i)
    ensures LostBy(s.log, i) > 0 ==> FromOvertaken(s.log, i) || SomeOvertaken(s.log[..i], s.log[i].id, i)
    ensures Fresh(s.log[..i + 1], s.log[i].id) ==> LostBy(s.log, i) >= 0
    ensures Punctual(s.log, s.log[i].id) && NeverReplayed(s.log, s.log[i].id) ==> LostBy(s.log, i) == 0
  {
    ReachableInv(cfg, s);
    if Fresh(s.log[..i + 1], s.log[i].id) {
      HeldNotAhead(cfg, s.log, i);
    }
    var id := s.log[i].id;
    HeldCount(cfg, s.log, i);
    assert Justified(cfg, s.log[..i], s.log[i]);
    LogPrefix(cfg, s.log, i);
    assert s.log[..i][..i] == s.log[..i];
    if ShortBy(s.log, i) > 0 {
      ShortIsOvertaken(cfg, s.log, i);
    } else if Lost(s.log[..i], id) > 0 {
      LossIsOvertaken(cfg, s.log[..i], id, i);
    }
    if Punctual(s.log, id) && NeverReplayed(s.log, id) {
      PunctualIsCurrent(cfg, s.log, id, i);
    }
  }

  /** What turned a row dead, in every run: an unsupported action, an answer that is not
      retryable, or a retryable answer to a relay holding MaxAttempts or more; never a transport failure. */
  lemma CausesOfDeath(cfg: Config, s: State, i: nat)
    requires cfg.Normalized() && Reachable(cfg, s) && i < |s.log| && s.log[i].Wrote? && s.log[i].mark.MarkDead?
    ensures !s.log[i].result.Ok() && !s.log[i].result.TransportFailure()
    ensures s.log[i].result.RetryableAnswer() ==> s.log[i].attempts >= cfg.maxAttempts
  {
    ReachableInv(cfg, s);
    assert Justified(cfg, s.log[..i], s.log[i]);
    DeadExactlyWhen(cfg, s.log[i].attempts, s.log[i].result, s.log[i].readAt);
  }

  /** How every effective write-back left its row, by the HTTP status the delivery got: sent on acceptance;
      back to pending without a response, or on 429, 502, 503 or 504 while the relay holds fewer than
      MaxAttempts; dead on anything else. */
  lemma OutcomesByStatus(cfg: Config, s: State, i: nat)
    requires cfg.Normalized() && Reachable(cfg, s) && i < |s.log| && s.log[i].Wrote?
    ensures var e := s.log[i];
            var again := || (e.result.status == 0 && e.result.error.SendFailed?)
                         || (e.result.status in {429, 502, 503, 504} && e.attempts < cfg.maxAttempts);
            && (e.mark.MarkSent? <==> e.result.error.NoError?)
            && (e.mark.MarkRetry? <==> !e.result.error.NoError? && again)
            && (e.mark.MarkDead? <==> !e.result.error.NoError? && !again)
            && (e.result.error.UnsupportedAction? ==> e.mark.MarkDead?)
  {
    ReachableInv(cfg, s);
    assert Justified(cfg, s.log[..i], s.log[i]);
    DecidesByStatus(cfg, s.log[i].attempts, s.log[i].result, s.log[i].readAt);
  }

  // --- The documented budget ---

  function KindOf(e: Event): Failure
    requires e.Wrote?
  {
    if e.result.TransportFailure() then Transport else Answer
  }

  /** The failures that sent the row back to pending since its last replay. */
  function Failures(log: seq<Event>, id: int): seq<Failure> {
    if log == [] then []
    else
      var before, e := log[..|log| - 1], log[|log| - 1];
      if e == Replayed(id) then []
      else Failures(before, id) + if Retry(e, id) then [KindOf(e)] else []
  }

  lemma FailuresAfter(before: seq<Event>, e: Event, id: int)
    requires e != Replayed(id)
    ensures Failures(before + [e], id) ==
            Failures(before, id) + if Retry(e, id) then [KindOf(e)] else []
  {
    assert (before + [e])[..|before|] == before;
  }

  /** They are counted right, and none of them should have killed the row. */
  ghost predicate Survived(cfg: Config, log: seq<Event>, id: int)
    requires cfg.Normalized()
  {
    && |Failures(log, id)| == Retries(log, id)
    && Answers(Failures(log, id)) == AnswerRetries(log, id)
    && Killer(Failures(log, id), 0, cfg.maxAttempts).None?
  }

  lemma {:induction false} FailuresSurvived(cfg: Config, log: seq<Event>, id: int)
    requires cfg.Normalized() && LogJustified(cfg, log) && Current(log, id)
    ensures Survived(cfg, log, id)
    decreases |log|
  {
    if log != [] && log[|log| - 1] != Replayed(id) {
      var n := |log| - 1;
      var before, e := log[..n], log[n];
      LogShorter(cfg, log);
      assert log == before + [e];
      CurrentAfter(before, e, id);
      FailuresSurvived(cfg, before, id);
      FailuresAfter(before, e, id);
      CountersAfter(before, e, id);
      if Retry(e, id) {
        NothingLost(before, id);
        HeldCount(cfg, log, n);
        OneMoreSurvived(cfg, before, e, id);
      } else {
        assert Failures(before, id) + [] == Failures(before, id);
      }
    }
  }

  lemma OneMoreSurvived(cfg: Config, before: seq<Event>, e: Event, id: int)
    requires cfg.Normalized() && Survived(cfg, before, id)
    requires Retry(e, id) && e.attempts == Retries(before, id) && Justified(cfg, before, e)
    ensures Survived(cfg, before + [e], id)
  {
    var failure := KindOf(e);
    FailuresAfter(before, e, id);
    CountersAfter(before, e, id);
    KillerOfOneMore(Failures(before, id), failure, 0, cfg.maxAttempts);
    AnswersSplit(Failures(before, id), [failure]);
    assert [failure][1..] == [];
  }

  /** The documented budget, on runs: a row whose counts are right dies of a retryable answer after being
      sent back for exactly MaxAttempts of them if and only if none of its first MaxAttempts retries was a
      transport failure; otherwise after fewer. */
  lemma DocumentedBudgetOfRuns(cfg: Config, s: State, i: nat)
    requires cfg.Normalized() && Reachable(cfg, s) && i < |s.log| && s.log[i].Wrote?
    requires s.log[i].mark.MarkDead? && s.log[i].result.RetryableAnswer()
    requires Current(s.log[..i], s.log[i].id) && ShortBy(s.log, i) == 0
    ensures var failures := Failures(s.log[..i], s.log[i].id);
            && Killer(failures + [Answer], 0, cfg.maxAttempts) == Some(|failures|) && cfg.maxAttempts <= |failures|
            && AnswerRetries(s.log[..i], s.log[i].id) <= cfg.maxAttempts
            && (AnswerRetries(s.log[..i], s.log[i].id) == cfg.maxAttempts <==>
                forall j :: 0 <= j < cfg.maxAttempts ==> failures[j].Answer?)
  {
    ReachableInv(cfg, s);
    var before, id := s.log[..i], s.log[i].id;
    var failures := Failures(before, id);
    LogPrefix(cfg, s.log, i);
    FailuresSurvived(cfg, before, id);
    NothingLost(before, id);
    HeldCount(cfg, s.log, i);
    CausesOfDeath(cfg, s, i);
    KillerOfOneMore(failures, Answer, 0, cfg.maxAttempts);
    DocumentedBudgetIff(failures + [Answer], cfg.maxAttempts);
    AnswersSplit(failures, [Answer]);
    assert [Answer][1..] == [] && (failures + [Answer])[..|failures| + 1] == failures + [Answer];
    assert forall j :: 0 <= j < cfg.maxAttempts ==> (failures + [Answer])[j] == failures[j];
  }
}
