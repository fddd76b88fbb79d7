/** What the relay decides about one delivery: retry, give up, and how long to wait.
    Integer widths: a Go time.Duration is a signed 64-bit count of nanoseconds. */
module Policy {
  import opened Wrappers

  const SECOND := 1_000_000_000
  const MAX_INT64 := 0x7fff_ffff_ffff_ffff

  datatype Config = Config(pollInterval: int, batchSize: int, maxAttempts: int, lease: int) {
    /** What normalizeOutboxConfig establishes. */
    predicate Normalized() {
      pollInterval > 0 && batchSize > 0 && maxAttempts > 0 && lease > 0
    }

    /** Normalized, and the poll interval leaves room for the largest backoff. */
    predicate Valid() {
      Normalized() && pollInterval <= MAX_INT64 / 256
    }
  }

  /** Fills in the defaults: what is positive is kept, the rest becomes 2s / 100 / 8 / 30s. */
  function NormalizeOutboxConfig(cfg: Config): (normalized: Config)
    ensures normalized.Normalized()
    ensures cfg.Normalized() <==> normalized == cfg
  {
    Config(if cfg.pollInterval <= 0 then 2 * SECOND else cfg.pollInterval,
           if cfg.batchSize <= 0 then 100 else cfg.batchSize,
           if cfg.maxAttempts <= 0 then 8 else cfg.maxAttempts,
           if cfg.lease <= 0 then 30 * SECOND else cfg.lease)
  }

  /** The defaults are 2s, 100 rows, 8 attempts and 30s; each field gets its own, whatever the others are. */
  lemma DefaultsFillIn(cfg: Config)
    ensures var normalized := NormalizeOutboxConfig(cfg);
            && normalized.pollInterval in {cfg.pollInterval, 2_000_000_000}
            && normalized.batchSize in {cfg.batchSize, 100}
            && normalized.maxAttempts in {cfg.maxAttempts, 8}
            && normalized.lease in {cfg.lease, 30_000_000_000}
            && (cfg.pollInterval > 0 ==> normalized.pollInterval == cfg.pollInterval)
            && (cfg.batchSize > 0 ==> normalized.batchSize == cfg.batchSize)
            && (cfg.maxAttempts > 0 ==> normalized.maxAttempts == cfg.maxAttempts)
            && (cfg.lease > 0 ==> normalized.lease == cfg.lease)
  {
  }

  // --- Classifying an answer ---

  datatype SendError = NoError | UnsupportedAction | SendFailed(reason: string)

  /** A status and an error. Status 0 means that no HTTP response arrived. */
  datatype Reply = SendResult(status: int, error: SendError) {
    predicate Ok() { error.NoError? }

    predicate TransportFailure() {
      status == 0 && error.SendFailed?
    }

    predicate RetryableAnswer() {
      !Ok() && ClassifyRetryable(status)
    }

    function Reason(): string {
      match error
      case NoError => ""
      case UnsupportedAction => "unsupported outbox action"
      case SendFailed(reason) => reason
    }
  }

  /** What sendOutboxRow returns: an unsupported action never got as far as a request. */
  type SendResult = reply: Reply | reply.error.UnsupportedAction? ==> reply.status == 0
    witness SendResult(200, NoError)

  predicate ClassifyRetryable(status: int) {
    status == 429 || status == 502 || status == 503 || status == 504
  }

  datatype Mark = MarkSent(sentAt: int) | MarkRetry(retryAt: int) | MarkDead

  /** processOutboxRow: the write-back chosen for a row claimed with `attempts`, when the clock
      is read at `readAt` before the write-back. */
  function Decide(cfg: Config, attempts: nat, result: SendResult, readAt: int): Mark {
    if result.Ok() then
      MarkSent(readAt)
    else
      var transportFailure := result.status == 0 && !result.error.UnsupportedAction?;
      var retryable := transportFailure || ClassifyRetryable(result.status);
      if retryable && (transportFailure || attempts < cfg.maxAttempts) then
        MarkRetry(readAt + RelayBackoff(cfg.pollInterval, attempts + 1))
      else
        MarkDead
  }

  /** The decision by HTTP status: an accepted row is sent; one without a response is always retried; 429, 502,
      503 and 504 are retried while attempts are left; anything else is given up. */
  lemma DecidesByStatus(cfg: Config, attempts: nat, result: SendResult, readAt: int)
    ensures result.error.NoError? ==> Decide(cfg, attempts, result, readAt) == MarkSent(readAt)
    ensures !result.error.NoError? ==>
              (Decide(cfg, attempts, result, readAt).MarkRetry? <==>
                || (result.status == 0 && result.error.SendFailed?)
                || (result.status in {429, 502, 503, 504} && attempts < cfg.maxAttempts))
    ensures !result.error.NoError? && !Decide(cfg, attempts, result, readAt).MarkRetry? ==>
              Decide(cfg, attempts, result, readAt) == MarkDead
    ensures result.error.UnsupportedAction? ==> Decide(cfg, attempts, result, readAt) == MarkDead
  {
  }

  /** Dead is reached exactly by an unsupported action, by an answer that is not retryable, or
      by a retryable answer once the attempts are used up; never by a transport failure. */
  lemma DeadExactlyWhen(cfg: Config, attempts: nat, result: SendResult, readAt: int)
    ensures Decide(cfg, attempts, result, readAt) == MarkDead <==>
            !result.Ok() && !result.TransportFailure() && (result.RetryableAnswer() ==> attempts >= cfg.maxAttempts)
    ensures result.TransportFailure() ==> Decide(cfg, attempts, result, readAt).MarkRetry?
  {
  }

  // --- Backoff ---

  function Pow2(n: nat): (p: nat)
    ensures p >= 1
  {
    if n == 0 then 1 else 2 * Pow2(n - 1)
  }

  /** Two's complement wrap-around of a signed 64-bit product. */
  function Wrap64(x: int): (w: int)
    ensures -MAX_INT64 - 1 <= w <= MAX_INT64
    ensures (x - w) % 0x1_0000_0000_0000_0000 == 0
    ensures -MAX_INT64 - 1 <= x <= MAX_INT64 ==> w == x
  {
    (x + 0x8000_0000_0000_0000) % 0x1_0000_0000_0000_0000 - 0x8000_0000_0000_0000
  }

  function Max(a: int, b: int): int { if a > b then a else b }
  function Min(a: int, b: int): int { if a < b then a else b }

  function Shift(attempt: int): (s: nat)
    ensures s <= 8
  {
    Min(Max(attempt - 1, 0), 8)
  }

  function RelayBackoff(pollInterval: int, attempt: int): int {
    var base := if pollInterval <= 0 then 2 * SECOND else pollInterval;
    Wrap64(base * Pow2(Shift(attempt)))
  }

  lemma Pow2Bounds(n: nat)
    requires n <= 8
    ensures Pow2(n) <= 256 && Pow2(8) == 256
  {
    assert Pow2(1) == 2 && Pow2(2) == 4 && Pow2(3) == 8 && Pow2(4) == 16;
    assert Pow2(5) == 32 && Pow2(6) == 64 && Pow2(7) == 128 && Pow2(8) == 256;
  }

  lemma {:induction false} Pow2Monotone(m: nat, n: nat)
    requires m <= n
    ensures Pow2(m) <= Pow2(n)
    decreases n
  {
    if m < n {
      Pow2Monotone(m, n - 1);
    }
  }

  lemma ScaleBounds(base: int, factor: int, other: int)
    requires base > 0 && 1 <= factor <= other
    ensures base <= base * factor <= base * other
  {
  }

  /** With a base that leaves room, every delay lies in [base, 256*base] and grows with the attempts. */
  lemma BackoffBounds(cfg: Config, attempt: int, later: int)
    requires cfg.Valid() && attempt <= later
    ensures RelayBackoff(cfg.pollInterval, attempt) == cfg.pollInterval * Pow2(Shift(attempt))
    ensures cfg.pollInterval <= RelayBackoff(cfg.pollInterval, attempt) <= 256 * cfg.pollInterval
    ensures RelayBackoff(cfg.pollInterval, attempt) <= RelayBackoff(cfg.pollInterval, later)
  {
    Pow2Bounds(Shift(attempt));
    Pow2Bounds(Shift(later));
    Pow2Monotone(Shift(attempt), Shift(later));
    ScaleBounds(cfg.pollInterval, Pow2(Shift(attempt)), Pow2(Shift(later)));
    ScaleBounds(cfg.pollInterval, Pow2(Shift(later)), 256);
  }

  /** A first failure is retried after one poll interval; each further attempt doubles the delay, eight times
      over, and then it stays. */
  lemma DelaysDouble(cfg: Config, attempts: nat, result: SendResult, readAt: int)
    requires cfg.Valid() && Decide(cfg, attempts, result, readAt).MarkRetry?
    ensures var delay := Decide(cfg, attempts, result, readAt).retryAt - readAt;
            var next := Decide(cfg, attempts + 1, result, readAt);
            && (attempts == 0 ==> delay == cfg.pollInterval)
            && (next.MarkRetry? ==> next.retryAt - readAt == if attempts < 8 then 2 * delay else delay)
  {
    BackoffBounds(cfg, attempts + 1, attempts + 2);
    BackoffBounds(cfg, attempts + 2, attempts + 2);
    if attempts < 8 {
      assert Pow2(Shift(attempts + 2)) == 2 * Pow2(Shift(attempts + 1));
      Distribute(cfg.pollInterval, Pow2(Shift(attempts + 1)), Pow2(Shift(attempts + 1)));
    }
  }

  /** The backoff computation is exact for every attempt if and only if the poll interval is at
      most MaxInt64/256 (or is replaced by the default). */
  lemma BackoffExactIff(pollInterval: int)
    ensures (forall attempt: int :: RelayBackoff(pollInterval, attempt) ==
              (if pollInterval <= 0 then 2 * SECOND else pollInterval) * Pow2(Shift(attempt)))
        <==> pollInterval <= MAX_INT64 / 256
  {
    var base := if pollInterval <= 0 then 2 * SECOND else pollInterval;
    if pollInterval <= MAX_INT64 / 256 {
      forall attempt: int ensures RelayBackoff(pollInterval, attempt) == base * Pow2(Shift(attempt)) {
        Pow2Bounds(Shift(attempt));
        ScaleBounds(base, Pow2(Shift(attempt)), 256);
      }
    } else {
      Pow2Bounds(8);
      assert Shift(9) == 8;
      assert RelayBackoff(pollInterval, 9) <= MAX_INT64 < base * 256;
    }
  }

  /** The delays after the first `attempts` failures, added up. */
  function TotalBackoff(cfg: Config, attempts: nat): int {
    if attempts == 0 then 0 else TotalBackoff(cfg, attempts - 1) + RelayBackoff(cfg.pollInterval, attempts)
  }

  /** The closed form: base*(2^m - 1) up to nine attempts, then 256*base for each further one. */
  function DelayUnits(attempts: nat): nat {
    if attempts <= 9 then Pow2(attempts) - 1 else 511 + 256 * (attempts - 9)
  }

  lemma DelayUnitsStep(attempts: nat)
    requires attempts > 0
    ensures DelayUnits(attempts) == DelayUnits(attempts - 1) + Pow2(Shift(attempts))
  {
    Pow2Bounds(8);
    assert Pow2(9) == 512;
  }

  lemma Distribute(base: int, a: int, b: int)
    ensures base * (a + b) == base * a + base * b
  {
  }

  lemma {:induction false} TotalBackoffClosedForm(cfg: Config, attempts: nat)
    requires cfg.Valid()
    ensures TotalBackoff(cfg, attempts) == cfg.pollInterval * DelayUnits(attempts)
  {
    if attempts > 0 {
      TotalBackoffClosedForm(cfg, attempts - 1);
      BackoffBounds(cfg, attempts, attempts);
      DelayUnitsStep(attempts);
      Distribute(cfg.pollInterval, DelayUnits(attempts - 1), Pow2(Shift(attempts)));
    }
  }

  lemma {:induction false} TotalBackoffMonotone(cfg: Config, m: nat, n: nat)
    requires cfg.Valid() && m <= n
    ensures TotalBackoff(cfg, m) <= TotalBackoff(cfg, n)
    decreases n
  {
    if m < n {
      TotalBackoffMonotone(cfg, m, n - 1);
      BackoffBounds(cfg, n, n);
    }
  }

  // --- The documented retry budget ---

  /** The failures of one row, in order; each is a transport failure or a retryable answer. */
  datatype Failure = Transport | Answer

  /** The failure that kills the row: the first retryable answer met with `attempts` used up,
      where every earlier failure, of either kind, has counted as an attempt. */
  function Killer(failures: seq<Failure>, attempts: nat, maxAttempts: nat): Option<nat>
    decreases |failures|
  {
    if failures == [] then None
    else if failures[0].Answer? && attempts >= maxAttempts then Some(0)
    else
      match Killer(failures[1..], attempts + 1, maxAttempts)
      case None => None
      case Some(i) => Some(i + 1)
  }

  function Answers(failures: seq<Failure>): nat
    decreases |failures|
  {
    if failures == [] then 0 else (if failures[0].Answer? then 1 else 0) + Answers(failures[1..])
  }

  /** Killer agrees with the relay's decision, failure by failure. */
  lemma KillerIsDecided(cfg: Config, failures: seq<Failure>, attempts: nat, result: SendResult, readAt: int)
    requires cfg.Normalized() && failures != []
    requires if failures[0].Answer? then result.RetryableAnswer() else result.TransportFailure()
    ensures Killer(failures, attempts, cfg.maxAttempts) == Some(0) <==> Decide(cfg, attempts, result, readAt).MarkDead?
  {
  }

  lemma {:induction false} KillerIsAnAnswer(failures: seq<Failure>, attempts: nat, maxAttempts: nat)
    requires Killer(failures, attempts, maxAttempts).Some?
    ensures var i := Killer(failures, attempts, maxAttempts).value;
            && i < |failures| && failures[i].Answer? && attempts + i >= maxAttempts
            && forall j :: 0 <= j < i && attempts + j >= maxAttempts ==> failures[j].Transport?
    decreases |failures|
  {
    if !(failures[0].Answer? && attempts >= maxAttempts) {
      KillerIsAnAnswer(failures[1..], attempts + 1, maxAttempts);
      var i := Killer(failures[1..], attempts + 1, maxAttempts).value;
      assert failures[1..][i] == failures[i + 1];
      forall j | 0 <= j < i + 1 && attempts + j >= maxAttempts ensures failures[j].Transport? {
        if j > 0 {
          assert failures[1..][j - 1] == failures[j];
        }
      }
    }
  }

  /** One more failure after `failures`, which did not kill the row. */
  lemma {:induction false} KillerOfOneMore(failures: seq<Failure>, last: Failure, attempts: nat, maxAttempts: nat)
    requires Killer(failures, attempts, maxAttempts).None?
    ensures Killer(failures + [last], attempts, maxAttempts) ==
            if last.Answer? && attempts + |failures| >= maxAttempts then Some(|failures|) else None
    decreases |failures|
  {
    if failures == [] {
      assert [] + [last] == [last] && [last][1..] == [];
    } else {
      assert (failures + [last])[1..] == failures[1..] + [last];
      KillerOfOneMore(failures[1..], last, attempts + 1, maxAttempts);
    }
  }

  lemma {:induction false} AnswersSplit(a: seq<Failure>, b: seq<Failure>)
    ensures Answers(a + b) == Answers(a) + Answers(b)
    decreases |a|
  {
    if a == [] {
      assert a + b == b;
    } else {
      assert (a + b)[1..] == a[1..] + b;
      AnswersSplit(a[1..], b);
    }
  }

  lemma {:induction false} AnswersBounds(failures: seq<Failure>)
    ensures Answers(failures) <= |failures|
    ensures Answers(failures) == |failures| <==> forall j :: 0 <= j < |failures| ==> failures[j].Answer?
    ensures Answers(failures) == 0 <==> forall j :: 0 <= j < |failures| ==> failures[j].Transport?
    decreases |failures|
  {
    if failures != [] {
      AnswersBounds(failures[1..]);
      assert forall j :: 1 <= j < |failures| ==> failures[j] == failures[1..][j - 1];
      assert forall j :: 0 <= j < |failures| - 1 ==> failures[1..][j] == failures[j + 1];
    }
  }

  /** The program's README promises that transport failures do not use up the budget: a row should die on
      retryable answer number MaxAttempts + 1. The code kills a row there if and only if none of
      its first MaxAttempts failures was a transport failure; otherwise it kills it earlier. */
  lemma DocumentedBudgetIff(failures: seq<Failure>, maxAttempts: nat)
    requires Killer(failures, 0, maxAttempts).Some?
    ensures var killer := Killer(failures, 0, maxAttempts).value;
            && maxAttempts <= killer < |failures|
            && Answers(failures[..killer + 1]) <= maxAttempts + 1
            && (Answers(failures[..killer + 1]) == maxAttempts + 1 <==>
                forall j :: 0 <= j < maxAttempts ==> failures[j].Answer?)
  {
    KillerIsAnAnswer(failures, 0, maxAttempts);
    var killer := Killer(failures, 0, maxAttempts).value;
    var head, middle, last := failures[..maxAttempts], failures[maxAttempts..killer], [failures[killer]];
    assert failures[..killer + 1] == head + middle + last;
    AnswersSplit(head + middle, last);
    AnswersSplit(head, middle);
    AnswersBounds(head);
    AnswersBounds(middle);
    assert last[1..] == [];
    assert Answers(last) == 1;
  }

  /** The smallest disagreement: with MaxAttempts = 1, one transport failure uses up the attempt,
      so the first retryable answer kills a row that should have survived it. */
  lemma TransportFailureSpendsBudget()
    ensures Killer([Transport, Answer], 0, 1) == Some(1)
    ensures Answers([Transport, Answer]) == 1
  {
    assert [Transport, Answer][1..] == [Answer];
    assert [Answer][1..] == [];
  }
}
