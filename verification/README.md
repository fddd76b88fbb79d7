# A verified model of the outbox relay and the full-sync rebuild

The library keeps Elasticsearch in step with a relational database in two ways. Business transactions
write *outbox rows*, which relays claim under a lease, deliver and write back; and a *full sync* scans a
table into a new index and switches an alias to it. This project models both, and the path between them,
and proves what the design promises: over every interleaving of relays, crashes, replays and cleanups,
every history of statements, every failure or lost response of a rebuild, and every worker schedule.

`dafny verify dfyconfig.toml` checks the whole project.

## Layout

| file | what it holds |
|---|---|
| `Wrappers.dfy` | `Option`, `Result` |
| `Documents.dfy`, `Fields.dfy` | what index, update and delete do to documents, and what a sequence of them leaves field by field |
| `Redelivery.dfy`, `Reordering.dfy` | repeated, late and reordered delivery |
| `Policy.dfy` | configuration defaults, retry decision, backoff, the documented budget |
| `Outbox.dfy` | the outbox table and its SQL statements, each one atomic |
| `Protocol.dfy`, `ProtocolInvariant.dfy` | any number of relays as a state machine, and the invariant of every step |
| `Deliveries.dfy` | every run of any number of relays: each row counts where it was carried out last, and when that shows |
| `Crashes.dfy`, `Overtaking.dfy`, `RevertingRun.dfy` | one relay that crashes: what its runs keep, what it leaves behind and when that shows, and a run that brings an old version back |
| `Leases.dfy` | fencing, lease exclusion, stale snapshots, progress |
| `Account.dfy`, `Budget.dfy`, `DyingTime.dfy` | what the attempts column counts and loses; the retry budget; the time a row takes to die |
| `OneRelayBudget.dfy`, `LateRetry.dfy`, `StaleReplay.dfy` | one relay keeps the budget; runs of two relays and of a replay that do not |
| `Store.dfy`, `Relay.dfy`, `Ops.dfy` | the imperative store, relay, drain, cleanup and replay; every call is a run of protocol steps |
| `Models.dfy`, `Callbacks.dfy`, `Transactions.dfy` | rows, registered models, events of a statement, commit and rollback |
| `Scan.dfy`, `Cluster.dfy`, `FullSync.dfy` | keyset scan, alias handling, one model's full sync |
| `Agreement.dfy`, `EndToEnd.dfy` | incremental delivery equals a rebuild; commit, drain, and meet the rebuild |
| `Failures.dfy`, `WorkerPool.dfy`, `Lifecycle.dfy` | failure ring, full-sync worker pool, relay start and shutdown |

The concurrent parts exist twice: a state machine whose steps are single statements or critical sections,
and classes whose methods do the same to real fields and append each step to a ghost `run`, so that
whatever is proved of runs holds of what the methods do. A method named `Others` stands for what everybody
else does in between: its contract allows any steps that are not the caller's own, and callers rely on
nothing else. A store starts on the table and the run it is given, and while its relay is alone (`solo`),
Elasticsearch holds exactly what the run's deliveries make of it (`Relay.OutboxRelay.Valid`). Statements and
requests may fail, or be carried out and their answer lost, except where a store, database, cluster or full
sync is declared `steady`: then the contracts also say that the call succeeds.

## Where the code and its documentation differ

Line numbers are those of the program's own README.

* Line 486 says that a delivery that gets no HTTP response does not use up `max_attempts`. It never kills the
  row, but it does add to `attempts`. `Budget.DocumentedBudgetOfRuns` gives the exact condition under which a
  run meets the documented budget, `OneRelayBudget.OneRelayKillsWhen` the same for one relay without any
  hypothesis, `Policy.DocumentedBudgetIff` for a list of failures; `Policy.TransportFailureSpendsBudget` is the
  smallest disagreement.
* The same line promises that `max_attempts` bounds the retries. The retry time is computed from a clock
  reading taken before the write-back. A write-back that arrives after that time lets another relay claim the
  row from an older snapshot, and one attempt is not counted: `LateRetry.LateRetryExceedsBudget`. In every run
  the budget is exceeded if and only if more counts were lost that way than the row had transport failures
  (`Budget.BudgetExceededIff`), so only after an overtaken claim (`Budget.RetryBudget`) and never with one
  relay (`OneRelayBudget.OneRelayKeepsBudget`). `Account.AttemptsAreRetriesIff` says when the column is right.
* Line 343 says that a replay resets `attempts`. A relay that has read the row before the replay and claims it
  after still hands out the old count, so that the row dies of its first failure since:
  `StaleReplay.ReplayedRowDiesAtOnce`. Theorems about the stretch since a replay ask for counts that are
  `Fresh`, read since; a row never replayed meets that (`Account.FreshWhenNeverReplayed`).
* Line 498 says that the rebuild index is cleaned up after a failing alias switch. It is not, and it must not
  be, since the switch may have taken place: see stage `Switching` of `FullSync.FullSyncer.FullSyncTableAt`.
  When the scan fails, cleaning up is attempted.
* Line 504 says that repeated deliveries converge. They do when a complete pass over the rows follows
  (`Redelivery.CompletePassDecides`), but nothing makes one follow. A single relay that crashes once after a
  send can bring an old version back, since the abandoned row waits for its lease while later rows go first:
  `RevertingRun.CrashReverts`. `Overtaking.InterruptionsShowIff` says exactly when one relay's interruptions
  show, `Deliveries.DeliveriesShowIff` when any run's deliveries do, and `Redelivery.LateDuplicateHarmlessIff`
  when a single late duplicate does.
* Line 487 describes `Shutdown` as stopping the relay first. A `RunOutboxRelay` call that has read `stopped`
  and not yet taken the mutex starts a loop after a successful `Shutdown`: `Lifecycle.RunOutlivesShutdown`,
  with the exact condition in `Lifecycle.RunsAfterShutdownIff`.
* A cleanup with a limit selects ids first and deletes by id alone, so a finished row is deleted while open
  if and only if it was replayed in between and not sent or dead since: last clause of
  `Ops.Operator.CleanupOutbox`. Without a limit the same row is spared: `Ops.LimitDropsReplayedRow`.

## Assumptions

All relays read one clock that never runs backwards; times are exact integers. A lease token is never
drawn twice. One SQL statement is atomic, and its acknowledgement may be lost. A request is carried out
before its answer or its time-out, or not at all. A statement's error rolls its transaction back. An update
changes the columns it names and no others; where GORM also sets an auto-update-time column, the "same
fields" part of the agreement theorems does not speak of that column. An item accepted by the bulk indexer
is in the index once the indexer has closed without error. `GetID` is injective on the keys of a model,
JSON field names are column names, and documents are flat. Registered models have tables and aliases of
their own. Nobody else changes the cluster's indices or aliases while a full sync runs. `LIMIT 0` returns
no rows and a negative limit does not limit.

## Model

| member | source | states |
|---|---|---|
| Policy.NormalizeOutboxConfig | syncer.go:226-240 | every field becomes positive, and exactly the configurations that were so already are kept |
| Policy.DefaultsFillIn | syncer.go:226-240 | the defaults are 2s, 100 rows, 8 attempts and 30s, and a field's default does not depend on the other fields |
| Policy.DecidesByStatus | outbox_relay.go:218-260 | by HTTP status: an accepted row is sent; no response retries always; 429, 502, 503 and 504 retry while attempts are below MaxAttempts; anything else, and any unsupported action, gives the row up |
| Policy.DeadExactlyWhen | outbox_relay.go:237-260 | a row is given up exactly on an unsupported action, an answer that is not retryable, or a retryable answer with the attempts used up; never on a transport failure |
| Policy.Wrap64 | outbox_relay.go:305-305 | the product wraps around like a signed 64-bit Go duration, and is exact within its range |
| Policy.BackoffBounds | outbox_relay.go:299-306 | each delay lies in [poll, 256 poll] and grows with the attempt, without overflow |
| Policy.DelaysDouble | outbox_relay.go:249-306 | the first retry waits one poll interval, each further attempt twice as long as the one before, eight times over, then no longer |
| Policy.BackoffExactIff | outbox_relay.go:299-306 | no delay overflows if and only if the poll interval is at most MaxInt64 / 256 |
| Policy.TotalBackoffClosedForm | outbox_relay.go:299-306 | m delays add up to poll (2^m - 1) up to nine, and to poll (511 + 256 (m - 9)) beyond |
| Policy.KillerIsDecided | outbox_relay.go:237-260 | the failure that kills a row, read off its failure history, is the one the relay's decision marks dead |
| Policy.DocumentedBudgetIff | README.md:486-486 | in a list of failures whose counts are right, the row dies on retryable answer number MaxAttempts + 1, as documented, if and only if none of the first MaxAttempts was a transport failure; otherwise earlier |
| Policy.TransportFailureSpendsBudget | outbox_relay.go:237-251 | one transport failure makes the first retryable answer fatal when MaxAttempts is 1 |
| Outbox.CandidatesAreClaimable | outbox_store.go:108-116 | the candidate query returns claimable rows as they are, in increasing id order, within its limit |
| Outbox.CandidatesAreAll | outbox_store.go:108-116 | a query that stays below its limit has returned every claimable row |
| Documents.PerformAllRuns | outbox_relay.go:315-340 | a sequence of deliveries acts on each document by that document's own summary: deliveries to different documents commute |
| Documents.AliasesAreSeparate | outbox_relay.go:315-340 | operations on other aliases, wherever they are mixed in, do not show under this one |
| Fields.SummaryShows | outbox_relay.go:315-340 | what a sequence of deliveries leaves of a document, read off by field: deleted if the last row to replace it is a delete, else in each field the value of the last row to write it since |
| Redelivery.EarlyEffectAbsorbed | outbox_relay.go:308-351 | delivering a row before a pass that contains it again leaves no trace |
| Redelivery.CompletePassDecides | README.md:504-504 | whatever is delivered beforehand, in any order and number, one complete pass in order decides the documents |
| Redelivery.TwiceIsOnce | README.md:504-504 | any sequence of rows delivered twice in order gives the same documents as once, from any start |
| Redelivery.LateDuplicateHarmlessIff | README.md:504-504 | a row delivered again after later rows is harmless if and only if what its first delivery did to its document survives them, whatever its action |
| Redelivery.LateRowHarmlessIff | outbox_store.go:108-116 | a row delivered only after later rows is harmless under the same condition |
| Redelivery.LateEffectIff | outbox_relay.go:315-340 | a replacement or merge that comes after a later effect, or before and after it, leaves the document of the right order if and only if it would have survived |
| Redelivery.LateDuplicateReverts | README.md:504-504 | a late duplicate can bring an old version of a document back |
| Reordering.ReorderingShowsIff | README.md:504-504 | rows delivered once each in any order leave the documents of id order if and only if each document with rows out of order is deleted in both orders, or has the same last value in every field in both |
| Deliveries.LastDeliveriesDecide | README.md:504-504 | deliveries in any order and number leave the documents of delivering each row once, in the order of the last deliveries |
| Deliveries.RunsAreFaithful | outbox_store.go:95-259 | in every run the table, the relays' copies and the requests carried out say what was inserted, also for rows removed since |
| Deliveries.DeliveriesShowIff | README.md:504-504 | in every run, with any relays, crashes, retries, replays and removals, Elasticsearch is as if the rows carried out had been delivered once in id order, if and only if each document with rows last delivered out of order is left the same, field by field, in both orders |
| Crashes.LoneStepKeeps | outbox_relay.go:186-211 | one relay's rows in hand come in id order, before those it still has to claim, under claims nothing has followed, and no claimable earlier row is missing from the batch |
| Crashes.NoneSkipped | outbox_store.go:108-116 | the candidate query passes over no claimable row before one it returns |
| Overtaking.SendsLeaveBehind | outbox_store.go:95-137 | in every run of one relay, a request carried out leaves no earlier row open but those not claimed yet, under an abandoned lease, or with a retry time not due |
| Overtaking.OvertakenIff | outbox_relay.go:186-211 | rows of a document were last carried out out of id order if and only if one that was left behind by a later row's last delivery was carried out afterwards |
| Overtaking.InterruptionsShowIff | outbox_relay.go:186-211 | one relay's crashes, lost statements and retries leave the documents of delivering the rows carried out once in id order, if and only if each document with an overtaken row is left the same, field by field, in the order of the last deliveries |
| RevertingRun.CrashReverts | outbox_relay.go:196-200 | a run of one relay with one crash after a send: every row is sent, and the document is the older row's |
| ProtocolInvariant.StepKeeps | outbox_store.go:95-259 | every step of every participant keeps the invariant that ties table, log, snapshots and held rows together |
| ProtocolInvariant.ReachableInv | outbox_store.go:95-259 | the invariant holds after every interleaving of inserts, relays, crashes, ticks, replays and removals |
| ProtocolInvariant.WriteBackIff | outbox_store.go:236-259 | a fenced write-back succeeds if and only if the row's latest statement is the holder's own claim |
| ProtocolInvariant.ClaimAllowed | outbox_store.go:147-163 | a row that passes the claim's WHERE clause has no unexpired lease, no retry time ahead and is not finished, as far as its history tells |
| Leases.WriteTakesEffectIff | outbox_store.go:165-259 | a write-back changes the table exactly when its own claim is the last thing that happened to the row; otherwise nothing changes and the batch is given up |
| Leases.FencedWrites | outbox_store.go:236-259 | in every run an effective write-back directly follows its own claim of the row, and no claim has two |
| Leases.SentWasAccepted | outbox_relay.go:218-231 | a row recorded as sent was accepted by Elasticsearch under the claim that recorded it |
| Leases.OutcomeIsRecorded | outbox_store.go:165-232 | sent_at is set exactly while a row is sent, lies between a claim of it and now, and last_error is that of the failure recorded last |
| Leases.LeaseExclusion | outbox_store.go:147-163 | without a replay in between, a row's claims are made at strictly increasing times, and a full lease apart unless it was written back |
| Leases.OverlappingClaimsAreDisjoint | outbox_store.go:95-137 | batches claimed at the same clock reading, or within a lease and not written back, share no row |
| Leases.ClaimOvertakenIff | outbox_store.go:102-134 | a winning claim was overtaken by a write-back or replay exactly when the row was replayed or retried with a retry time already due |
| Leases.ClaimedRowIsCurrent | outbox_store.go:102-134 | a claim won from a stale snapshot hands out the attempts and the content the table holds, unless overtaken so |
| Leases.NoRowIsStuck | outbox_store.go:108-159 | pending rows hold no lease, processing rows hold a token and a lease end, and an unfinished row is claimable exactly from its later column on, at most one lease or largest backoff away |
| Leases.RowsPersist | outbox_store.go:147-259 | only removal takes a row out of the table, and nothing changes what it asks to deliver |
| Leases.CreatedAtInsert | outbox_store.go:55-71 | in every run each row still carries what it was inserted with, and created_at is the clock reading of its insert |
| Account.AttemptsAccount | outbox_relay.go:237-290 | in every run the attempts of a row that has not died are its retries since its last replay, less what they were written short of the table's count |
| Account.LossIff | outbox_relay.go:237-261 | while counts are read since the last replay, they are only ever lost, and none is if and only if every retry was written from the count the table held |
| Account.AttemptsAreRetriesIff | outbox_relay.go:237-261 | the attempts of a row that has not died never exceed its retries since its last replay, and equal them if and only if every retry was written from the count the table held; any other was written under an overtaken claim |
| Budget.RetryBudget | outbox_relay.go:237-261 | in every run, answers send a row back to pending more than MaxAttempts times since its last replay only if some retry since was written under a claim that a retry already due had overtaken |
| Budget.BudgetExceededIff | outbox_relay.go:237-261 | in every run that budget is exceeded if and only if a retryable answer met the row with its answers used up and more counts lost than it had had transport failures |
| Budget.PunctualRetryBudget | outbox_relay.go:249-251 | with punctual retries the budget is kept, and the attempts column covers all retries |
| Budget.KilledExactlyWhen | outbox_relay.go:237-261 | in every run a retryable answer kills a row exactly when its failures of both kinds since its last replay number MaxAttempts and what it has lost; losses need overtaken claims, and gains a count read before the replay |
| Budget.CausesOfDeath | outbox_relay.go:237-290 | in every run, a dead row was killed by one of the three causes and never by a transport failure |
| Budget.OutcomesByStatus | outbox_relay.go:218-290 | in every run, what each effective write-back did to its row follows from the HTTP status its delivery got and the attempts held, in the same terms |
| Budget.DocumentedBudgetOfRuns | README.md:486-486 | in every run, a row whose counts are right dies of a retryable answer after exactly MaxAttempts others if and only if none of its first MaxAttempts retries was a transport failure; otherwise after fewer |
| OneRelayBudget.OneRelayCountsRight | outbox_store.go:95-137 | in every run of one relay, each write-back is made from the count the table holds |
| OneRelayBudget.OneRelayKeepsBudget | outbox_relay.go:237-261 | in every run of one relay, however late it writes, at most MaxAttempts answers send a row back, and the attempts of a row that has not died are its retries |
| OneRelayBudget.OneRelayKillsWhen | README.md:486-486 | in every run of one relay a retryable answer kills a row exactly at MaxAttempts failures, and as documented if and only if none of the first MaxAttempts was a transport failure |
| DyingTime.RetriesTakeTime | outbox_relay.go:249-251 | unless a count was short, the n-th retry time lies at least the first n delays after the first failure, also across replays |
| DyingTime.AttemptsTakeTime | outbox_relay.go:249-251 | in every run a row that has not died and has n attempts, counted since its last replay, took at least its first n delays |
| DyingTime.DeathTakesTime | outbox_relay.go:249-306 | a row killed by a retryable answer, its counts read since its last replay, spent at least poll (2^M - 1), or poll (511 + 256 (M - 9)), since its first failure |
| DyingTime.FirstDeathTakesTime | outbox_relay.go:249-306 | the same for every row never replayed, whatever its retries |
| StaleReplay.ReplayedRowDiesAtOnce | ops.go:111-148 | a concrete run in which a replayed row dies of its first failure, since a relay had read it before the replay |
| LateRetry.LateRetryExceedsBudget | outbox_relay.go:249-251 | a concrete run in which a late write-back lets a row be retried more than MaxAttempts times |
| Store.OutboxStore.TryClaimRow | outbox_store.go:147-163 | the compare-and-set changes the row exactly when it is claimable now, and a lost acknowledgement may hide that it ran |
| Store.OutboxStore.UpdateClaimedRow | outbox_store.go:236-259 | the fenced update runs or not, and reports an error whenever it did not change the row |
| Store.OutboxStore.MarkRow | outbox_store.go:165-232 | the write-back is a protocol step, and success means that the row was marked as decided |
| Store.OutboxStore.ClaimNext | outbox_store.go:118-133 | one candidate is tried under a fresh token and kept, as leased, exactly when the compare-and-set won |
| Store.OutboxStore.ClaimEach | outbox_store.go:118-134 | the loop stops at the end of the candidates or at a full batch; alone on the table it wins each candidate in turn |
| Store.OutboxStore.QueryCandidates | outbox_store.go:108-116 | the relay remembers the claimable rows in id order, up to four batches of them |
| Store.OutboxStore.ClaimStarted | outbox_store.go:108-136 | from the clock reading on, whatever others do, the relay ends up holding exactly the rows it returns |
| Store.OutboxStore.ClaimPending | outbox_store.go:95-137 | claiming keeps the protocol's guarantees under any interference; alone it hands out the first claimable rows in id order, up to the batch size |
| Store.BatchIsPrefix | outbox_store.go:106-121 | reading four times the batch size and stopping at a full batch claims the same rows as reading one batch |
| Relay.Elastic.Request | outbox_relay.go:315-351 | a request acts as the action says or not at all, may act without an answer, and succeeds only when it found what it needs |
| Relay.OutboxRelay.SendOutboxRow | outbox_relay.go:308-351 | an unknown action is refused without a request, everything else is one request |
| Relay.OutboxRelay.Deliver | outbox_relay.go:213-250 | one send, then one clock reading, both steps of the run; nothing is written yet, and alone the documents change by this row's request or not at all |
| Relay.OutboxRelay.ProcessOutboxRow | outbox_relay.go:213-290 | send, clock reading and write-back are protocol steps; alone, the row ends as the decision on the answer says, and no other request reaches the documents |
| Relay.OutboxRelay.ProcessNext | outbox_relay.go:196-208 | one row more is dealt with and counted under its own outcome, the rest are still as claimed |
| Relay.OutboxRelay.ProcessEach | outbox_relay.go:195-210 | each claimed row is processed once, in order; alone, exactly as many rows became sent and dead as the counters say, and without faults no row fails |
| Relay.OutboxRelay.RunOutboxBatch | outbox_relay.go:186-211 | alone, an error-free batch deals with exactly the first claimable rows and touches no others; an empty one means that none was claimable |
| Relay.OutboxRelay.DrainBatch | ops.go:156-168 | a batch is added to the counters unless it was empty, and then no row was claimable; with answered requests it uses up work, and with a healthy Elasticsearch it delivers the next stretch of the rows ready at the start |
| Relay.OutboxRelay.DrainBatches | ops.go:156-169 | alone, the loop ends at the bound or when no row is claimable at its last batch's clock reading; with every row ready and a healthy Elasticsearch every batch but the last is full: min(rows, bound x batch size) rows are claimed |
| Relay.OutboxRelay.DrainOutbox | ops.go:150-179 | Claimed = Processed + Retried + Dead; alone, the open rows at the start are those processed, those dead and those remaining, and draining stops early only when nothing is claimable; with every row ready and a healthy Elasticsearch, min(rows, bound x batch size) rows are delivered once in id order, each ends sent if its request found its document and dead otherwise, and unbounded every row is finished; without faults the call succeeds |
| Relay.ClaimsNotCounted | outbox_store.go:118-133 | claiming changes neither the number of open, nor of sent, nor of dead rows |
| Relay.WorkAfterMark | outbox_relay.go:237-290 | every write-back other than after a transport failure lowers the sum of 1 + max(0, MaxAttempts - attempts) over unfinished rows |
| Relay.CandidatesAre | outbox_store.go:108-116 | the candidate query returns the claimable rows in id order up to its limit, however the table is described |
| Relay.DrainGoesOn | ops.go:156-168 | a batch takes the next rows of the initial list even though the clock has moved on |
| Ops.Operator.CleanupOutbox | ops.go:74-109 | deletes exactly the rows of a status in the set, by default dead ones, created at least the given age before a clock reading of the call, the first ones in id order up to a positive limit, and counts them; a deleted row that had finished when it was picked is open if and only if it was replayed in between and not sent or dead since |
| Ops.Operator.ReplayOutbox | ops.go:111-148 | resets exactly the named rows in whatever status, or else the dead ones, the first ones in id order up to a positive limit; every other row stays, and lease_token too; refuses an empty request |
| Ops.MatchingIsExact | ops.go:79-93 | the selection is exactly the matching rows, in id order |
| Ops.FinishedRowsStay | ops.go:88-101 | a finished row that is not removed is touched by later steps if and only if one of them replays it, and otherwise stays as it is |
| Ops.OpenIffReopened | ops.go:111-148 | a row that had finished is open later on if and only if it was replayed and not sent or dead since |
| Ops.DroppedIff | ops.go:88-101 | of the rows a limited cleanup selected when they had finished, it deletes as open ones exactly those replayed in between and not sent or dead since |
| Ops.LimitDropsReplayedRow | ops.go:88-101 | a replay between the two statements of a limited cleanup loses a claimable row that the one statement without a limit spares |
| Callbacks.ModelsHavePrimaryIdentity | callback.go:280-302 | true exactly when every model has a non-zero key |
| Callbacks.ResolveModelCandidates | callback.go:261-278 | identified exactly when some candidate is non-empty with all keys set, and then the first such candidate; otherwise the first that names any model |
| Callbacks.ResolveIsFirst | callback.go:261-278 | the candidate chosen is the first identified one, and none is chosen only if there is none |
| Callbacks.BuildEvents | callback.go:83-99 | one event per model, in order |
| Callbacks.EventsAreAbout | callback.go:74-212 | the i-th event is the i-th model's, under the model's alias and document id |
| Callbacks.DeliveredWhole | callback.go:83-143 | a create, or an update that sends the whole model, replaces the document by the model's columns, deleted_at null under soft deletion, and touches no other document |
| Callbacks.DeliveredChange | callback.go:106-155 | any other update writes exactly the columns it names into an existing document, whatever else the model in memory holds |
| Callbacks.DeliveredRemoval | callback.go:175-209 | a soft deletion kept as a mark sets deleted_at to the callback's clock reading and nothing else; every other deletion removes the document |
| Transactions.Database.InsertFromEvents | outbox_store.go:35-73 | an event without table name, alias or document id inserts nothing; a failing batch leaves whole batches of 100 or nothing to the transaction; success inserts each event once, in order, stamped with the clock |
| Transactions.AutoSync.AfterStatement | autosync_tx.go:29-82 | a callback adds what its statement owes, or an error for the statement |
| Transactions.AutoSync.Transaction | autosync_tx.go:99-108 | the business rows and all owed outbox rows commit together, or neither changes, also when the commit's answer is lost; an error of the function, of a later hook or of an incomplete event rolls back; rows committed have all three addresses and a created_at within the transaction |
| Transactions.AutoSync.Run | callback.go:32-51 | a single statement is a transaction of its own |
| Transactions.OneRowPerModel | autosync_tx.go:29-82 | a committed statement on n identified auto-synced models added exactly n pending rows carrying their table, document ids and events, any other statement none |
| Agreement.ChangeKeepsAgreement | callback.go:74-212 | delivering a statement's event keeps documents and table in agreement, in every soft-delete setting; for equal fields an update needs the whole row in memory only if it sends the whole model |
| Agreement.UpdateKeepsAgreementIff | callback.go:102-158 | an update keeps the agreement if and only if it hits a live row or is sent as changed fields only |
| Agreement.HistoryKeepsAgreement | callback.go:74-212 | the agreement survives every legal history |
| Agreement.AgreementMeetsRebuild | fullsync.go:306-312 | documents that agree with the table are those a full sync builds: same ids, same soft-deletion marks and, with faithful updates, same fields |
| Agreement.RebuiltDocuments | fullsync.go:298-312 | a full sync of a fixed table has one document per row above the start, soft-deleted ones only where deletions are marks, with the row's columns and deleted_at null or the time stored |
| Agreement.RebuiltOnly | fullsync.go:298-372 | ... and no other document |
| Agreement.IncrementalEqualsRebuild | callback.go:74-212 | folding the events of any legal history from an empty table, mixed with any events of other models, gives under the alias the documents of a full sync of the final table |
| EndToEnd.CommitIsInserts | autosync_tx.go:29-72 | committing a transaction is a run of the protocol's insert steps and disturbs no relay |
| EndToEnd.WorkIsHistory | callback.go:74-212 | what committed statements put into the outbox is, in order, the events of their row changes |
| EndToEnd.CommittedAreReady | outbox_store.go:108-116 | a drain at any clock reading finds exactly the committed events, of all models, in commit order |
| EndToEnd.OwedToModel | callback.go:74-212 | what statements on several models owe, seen under one alias, is in order what the statements on its model owe |
| EndToEnd.CommittedThenDrainedIsRebuilt | ops.go:150-179 | statements on any number of models, committed on empty tables and drained once in order, leave under each alias the documents of a full sync of its final table |
| Scan.Prepare | fullsync_strategy.go:43-63 | refused exactly for a negative start on an unsigned key, else a cursor at the start |
| Scan.AboveIsExact | fullsync_strategy.go:70-77 | the query sees exactly the rows in scope above the checkpoint, in key order |
| Scan.PageExtends | fullsync.go:253-274 | a page, cut off anywhere, keeps the emitted keys increasing, above the start, and taken from the table as queried |
| Scan.PageCovers | fullsync.go:253-290 | after a page every row up to its last key that all queries could see has been emitted |
| Cluster.BuildAliasUpdate | index_alias.go:171-200 | one removal per old target in order, then the addition |
| Cluster.ActKeepsSound | index_alias.go:150-200 | no accepted alias action leaves an alias on a missing index, or an index and an alias of one name |
| Cluster.RemovalsRun | index_alias.go:171-186 | the removals take the alias off exactly the old targets |
| Cluster.SwitchMovesAlias | index_alias.go:150-200 | the request is accepted and moves the alias in one step from exactly the old indices to exactly the new one, a legacy index of that name being removed |
| FullSync.SearchCluster.ResolveAliasState | index_alias.go:32-72 | finds the indices behind the alias, or the legacy index bearing its name |
| FullSync.SearchCluster.CreateManagedIndex | index_alias.go:91-119 | the index is new and empty and the alias, if asked for, gains it; a failure left everything or nothing |
| FullSync.SearchCluster.SwitchAliasToIndex | index_alias.go:150-169 | the alias moves at once, or nothing changes; a lost response hides which |
| FullSync.SearchCluster.DeleteIndices | index_alias.go:202-216 | a name that is not an index refuses the request and nothing goes; else only named indices go, some of them on failure, all on success |
| FullSync.FullSyncer.SyncFullSyncBatch | fullsync.go:327-372 | the cursor ends at the last key of a page handed on completely |
| FullSync.FullSyncer.ScanPage | fullsync.go:253-274 | one page of the table as it is now keeps what the scan guarantees and moves the cursor strictly up |
| FullSync.FullSyncer.ScanAll | fullsync.go:245-290 | keys strictly increase, every row above the start present throughout a completed scan is emitted exactly once, and on a fixed table the output is exactly its sorted rows, in full pages of the model's batch size if positive, else the default's, and one shorter page; only a default of 0 reads nothing; the scan ends, and without faults it completes |
| FullSync.FullSyncer.FullSyncFrom | fullsync.go:217-296 | after success the target holds exactly the emitted documents |
| FullSync.FullSyncer.BuildIndex | fullsync.go:168-192 | while the rebuild is under way the alias and every other index stay as they were; a failing scan removes at most the rebuild index, and does remove it when no request is refused |
| FullSync.FullSyncer.CleanupDetachedIndex | index_alias.go:225-235 | only the rebuild index is deleted |
| FullSync.FullSyncer.DeleteReplacedIndices | index_alias.go:218-223 | the old targets are deleted while the alias stays on the rebuild index |
| FullSync.FullSyncer.Publish | fullsync.go:194-212 | old targets are deleted only after a reported switch; success leaves the alias on the rebuild index alone and all old targets gone |
| FullSync.FullSyncer.FullSyncTableAt | fullsync.go:144-215 | through every layout, whatever fails or gets lost, the alias never points at a missing index and reaches either all old targets or exactly the rebuild index; the outcome by stage; other indices and aliases are kept; what is published covers the table; without faults and with a free name the sync is done unless the cursor is refused |
| FullSync.FullSyncer.EnsureIndexEntry | syncer.go:354-365 | after success searches reach an index, and an alias that resolved already is left alone; without faults and with a free name it succeeds |
| Failures.FailureRecorder.constructor | failures.go:43-48 | an empty recorder of the given size, or 128 |
| Failures.FailureRecorder.Record | failures.go:50-65 | the event joins the history, and the buffer keeps holding its newest part |
| Failures.FailureRecorder.Recent | failures.go:67-87 | the newest min(limit, retained) events in reverse order, all retained ones for a limit of zero or less |
| Failures.FailureRecorder.Summary | failures.go:89-93 | the last event of the whole history, and how many are retained |
| WorkerPool.EntriesForModels | model.go:146-165 | each selected table once, in order of first mention; an unregistered model is an error |
| WorkerPool.FirstMentionsAreDistinct | model.go:151-163 | the selection has no table twice and leaves none out |
| WorkerPool.StartsWorkers | fullsync.go:46-55 | the pool starts with as many workers as asked for, at least one and no more than there are tables |
| WorkerPool.StepKeeps | fullsync.go:49-68 | every step keeps each table in exactly one place: waiting, in a worker's hand, or reported |
| WorkerPool.AtMostOneResult | fullsync.go:49-68 | whatever the schedule, a table gets at most one result, and only selected tables do |
| WorkerPool.SendsNeverBlock | fullsync.go:56-68 | a worker with a table in hand always finds room in the result channel |
| WorkerPool.ReturnedResults | fullsync.go:49-83 | without cancellation the results are a permutation of the selection even when tables fail or panic; with it, only tables no worker took are missing |
| WorkerPool.PoolTerminates | fullsync.go:49-83 | every schedule is at most 4 tables + workers + 1 steps long, and none gets stuck before FullSync returns |
| Lifecycle.AtMostOneLoop | outbox_relay.go:30-108 | in every interleaving at most one loop runs, and relayRunning, relayCancel and a loop not yet cleaned up go together |
| Lifecycle.RunsAfterShutdownIff | outbox_relay.go:73-108 | after a successful wait a loop can still run if and only if a RunOutboxRelay call is past its check or has its loop |
| Lifecycle.StartedRelaysStop | outbox_relay.go:30-68 | with StartOutboxRelay alone nothing runs after a successful wait, ever; and once relayCancel has been called whatever runs is canceled |
| Lifecycle.RunOutlivesShutdown | outbox_relay.go:74-96 | a concrete interleaving in which a loop starts, uncanceled, after Shutdown has succeeded |
| Lifecycle.Syncer.StartOutboxRelay | outbox_relay.go:30-68 | refuses after stop, is a no-op while a relay runs, else starts a loop under a new relayCancel |
| Lifecycle.Syncer.RunOutboxRelay | outbox_relay.go:73-108 | refuses after stop and on unusable arguments; otherwise refuses exactly if a relay runs when it takes the mutex, and then does nothing more, and else returns after its loop's end |
| Lifecycle.Syncer.RunLoop | outbox_relay.go:54-65 | a loop's end resets the fields under the mutex before the WaitGroup lets go |
| Lifecycle.Syncer.Shutdown | syncer.go:320-323 | sets stopped, cancels what it finds and waits; it succeeds exactly if no loop is left when its context lets it wait long enough; with StartOutboxRelay alone, success means that nothing runs nor ever will |

## Left out

- HTTP, TLS, the Elasticsearch client, JSON encoding and GORM's reflection: foreign code, replaced by maps, atomic statements and lists of model instances.
- searcher, cobra commands, configuration files, options, logging, version, single-document operations: wiring around the core.
- Metrics and the failure events each path records: plain counters and log lines; only the ring buffer that keeps them is modelled.
- ReconcileCounts: two counts by two systems; equal counts do not mean agreement.
- ListOutbox and normalizeOutboxStatuses: a read-only query and string clean-up; cleanup takes its statuses as a set.
- Incremental delivery during a rebuild, and concurrent full syncs of one alias: the program's README states in line 501 that updates may be lost.
- Custom scan strategies: user code; only the integer-key strategy is modelled.
- A softDeleteMode other than update and delete, for which afterDelete sends no event.
- The is_write_index flag of alias actions: writes through the alias are only made with a single target.
- A transaction function that swallows a statement's error and commits: the database then keeps what that statement left.
- Other transactions' rows while one transaction runs: ids may skip, but the outbox table in Transactions holds one transaction's view.
- Closing the shared bulk indexer in Shutdown, and Health after a panic.
- Overtaking.InterruptionsShowIff: for runs of one relay without an operator's replays and removals; Deliveries.DeliveriesShowIff covers those and several relays, by the order of the last deliveries.
- Budget.RetryBudget: the converse is false, since a row may be sent right after an overtaken retry; Budget.BudgetExceededIff is the equivalence.
- Budget.DocumentedBudgetOfRuns: for rows whose counts are right, because otherwise LateRetry shows a row with more answers than documented; OneRelayBudget needs no such condition.
- DyingTime.DeathTakesTime: asks for counts read since the last replay, because otherwise it is false, as StaleReplay shows; a row never replayed needs no condition.
- Relay.OutboxRelay.DrainOutbox: the unbounded form requires that requests are answered and nobody adds work, since otherwise it need not end; order and emptiness are stated for a relay alone on the table.
- Agreement.IncrementalEqualsRebuild: the times stored in deleted_at by the database and by the callback are two clock readings, so only the presence of the mark is compared.
- Overflow of four times the batch size, which the code guards with max: integers are unbounded here, and by Store.BatchIsPrefix the size of the candidate query does not matter.
