# Verified model of the payment service's core protocols

This project models, in Dafny, the parts of a multi-gateway payment service whose correctness
depends on more than one function: rows changed by racing actors under optimistic locking, jobs
that may stop at any point, and small quantitative state machines. `dafny verify dfyconfig.toml`
checks the whole project.

Each part has two layers. A specification layer gives the database (or store) after every atomic
step as a function of its value before, and the theorems are about all runs of those steps. A code
layer (classes, methods, loops) follows the source's own control flow, changes objects and tables
step by step, and is proved to perform exactly those steps.

| part | modules |
|---|---|
| transactions, refunds, disputes, callbacks and the refund reaper | `TransactionDomain`, `RefundDomain`, `Ledger`, `LedgerInvariant`, `LedgerSteps`, `LedgerRuns`, `LedgerExact`, `RefundAsks`, `StrandedRefunds`, `ReaperRuns`, `CallbackRuns`, `Services`, `Proration` |
| idempotency guard and cancel resolution | `Idempotency`, `CancelResolution` |
| shard ring | `HashRing` |
| outbox, relay and weekly partitions | `IsoWeek`, `Outbox`, `OutboxDelivery`, `OutboxLag`, `OutboxJobs`, `RelayWorker` |
| rate limiter script | `TokenBucket` |
| circuit breaker | `Breaker` |
| reconciliation and its paging | `KeysetPaging`, `Reconciliation` |
| envelope encryption | `Envelope` |
| shared | `Basics`, `Sequences` |

**The ledger.** One `WithinTx` body of the source is one atomic action. Whatever an actor read
beforehand (from the primary, a replica, the cache or its own memory) is an argument of the action
and may be any row that was ever committed, or the copy a writer kept. The gateway call of a refund
is a separate step between its claim and its finish, with any answer. The invariant ties every
remembered copy to the committed rows, every claim and attempt count to the refund rows, every event
to what happened, and every parent's status to its refunds; all theorems in `LedgerRuns` follow from
it.

**Where the code does not keep what it seems to promise.** Each case has a concrete
input and an exact condition:

- the over-refund guard adds two 64-bit amounts; it is exact if and only if the sum does not
  overflow (`RefundDomain.OverRefundGuardIsExactIffSumFits`);
- proration multiplies two 64-bit amounts; a full refund returns the charge if and only if the product
  fits (`Proration.FullRefundExactIff`);
- the reaper's attempt limit is kept in all runs if and only if it is not one: a refund can be listed
  before its first attempt, attempted by the relay, and then visited
  (`ReaperRuns.AttemptLimitKeptIffAboveOne`);
- the count that guards detaching a partition is read from the replica, and an event belongs to the
  week in which its transaction began; nothing undelivered is lost if and only if replica lag and the
  age of open writers together are at most the retention period and one week
  (`OutboxLag.SafeIffLagFits`);
- the rate limiter script's branch for a rate of zero or less forgets spent tokens after an hour; the
  caller never reaches it (`TokenBucket.ExpiryInvisibleIff`);
- the envelope's length fields truncate; the format round-trips if and only if both lengths fit
  (`Envelope.DecodeEncode`);
- request hashing joins parts with a separator it does not escape; a request is told apart from all
  others of equal arity if and only if it has a single part or none of its parts holds the separator
  (`Idempotency.ToldApartIff`);
- a callback or a lost dispute can set a parent to REFUNDED while a refund is open; that refund is
  never done, and can be resolved at all if and only if another refund was done before
  (`StrandedRefunds.ResolvableIff`);
- the domain's refund table allows FAILED to PROCESSING; the stores' guards never take that edge
  (`LedgerRuns.ResolvedRefundsAreFrozen`).

## Model

| member | source | states |
|---|---|---|
| `RefundDomain.NewRefund` | internal/domain/refund/refund.go:85-133 | an accepted refund is open, unattempted and of the requested positive amount; when the sum fits 64 bits it keeps the total within the original amount, and a refusal as over-refund means the total would exceed it |
| `RefundDomain.OverRefundGuardIsExactIffSumFits` | internal/domain/refund/refund.go:95-118 | on valid 64-bit arguments, the guard accepts exactly the refunds that stay within the original amount if and only if the sum does not overflow |
| `RefundDomain.OverRefundSlipsThroughOnOverflow` | internal/domain/refund/refund.go:95-118 | a concrete over-refund that the guard lets through because the sum wraps around |
| `RefundDomain.ResolveRefundOutcome` | internal/app/refund/process.go:260-294 | completion and definite failure, exactly, are terminal; every other answer leaves the refund in flight |
| `RefundDomain.Refund.Transition` | internal/domain/refund/refund.go:135-153 | succeeds exactly from the statuses that the table's columns list, and its resolution mark follows the status; otherwise nothing changes |
| `TransactionDomain.Txn.TransitionState` | internal/domain/transaction/state_machine.go:42-72 | succeeds exactly from the statuses that the table's columns list, FAILED to CANCELLED only with a cancel request; changes the status and ends the lease of a PROCESSING row; an error leaves it unchanged |
| `Ledger.ResolveOutcome` | internal/app/payment/gateway.go:278-404 | for each flow, exactly which answers mean CAPTURED, AUTHORIZED, FAILED and CANCELLED |
| `Ledger.WebhookWords` | internal/app/webhook/service.go:262-277 | which word asks for which status, and that exactly five statuses can be asked for |
| `LedgerExact.StatusProvenance` | internal/app/payment/gateway.go:278-404 | in every run a row gets a status only from an action that may give it: CAPTURED only by a success outside the authorize flow, a callback asking for it or a won dispute, and so on for every status |
| `LedgerExact.StatesOfferActions` | internal/app/payment/process.go:20-114 | in every reachable state the committed row offers the actions its status calls for |
| `LedgerExact.OpenRefundsCanBeClaimed` | internal/app/refund/process.go:35-57 | in every reachable state a new refund can be claimed by the relay and one in process by the reaper, with what the claim writes |
| `LedgerExact.FinalizeCommits` | internal/app/payment/gateway.go:58-131 | from the committed PROCESSING row a definite answer commits exactly its status, ends the lease, keeps or learns the reference, and writes its event |
| `LedgerExact.OpenAnswerKeepsProcessing` | internal/app/payment/gateway.go:58-131 | an answer that settles nothing leaves the row PROCESSING with no event |
| `LedgerExact.CreatedRow` | internal/app/payment/service.go:335-560 | a new payment is PENDING with its amount at version one, and announced |
| `LedgerExact.MovesFromCommittedRow` | internal/app/payment/service.go:748-785 | settlement, disputes and callbacks on the committed row commit exactly from the statuses they apply to, and write only the status |
| `LedgerExact.AnnouncedExactly` | internal/app/payment/gateway.go:413-444 | in every run a change of status is announced with its version exactly for six statuses, and never by a finished refund |
| `LedgerExact.InitiationCommitsIff` | internal/app/refund/service.go:111-245 | an initiation commits exactly for a refundable current copy, a positive amount within the remainder, a reason and an initiator; what it inserts |
| `LedgerExact.RemainderCanBeRefunded` | internal/app/refund/service.go:21-27 | in every reachable state any amount within the remainder of a CAPTURED, SETTLED, PARTIALLY_REFUNDED or REFUND_FAILED payment can be refunded from its committed row |
| `LedgerExact.FinishCommits` | internal/app/refund/process.go:101-190 | a definite answer under a current claim and parent commits: refund, parent status and event, written out |
| `LedgerInvariant.SaveTxnKeeps` | internal/adapters/postgres/transaction.go:231-302 | a save that passes the version check was based on the committed row (up to a missed cancel request), however old the copy; it keeps all rows and all remembered copies consistent |
| `LedgerInvariant.OutsideSaveKeeps` | internal/adapters/postgres/transaction.go:257-302 | any legal save outside the refund service keeps the whole ledger invariant, with its event |
| `LedgerSteps.InitiateRefundKeeps` | internal/app/refund/service.go:111-211 | initiating from any remembered parent keeps the invariant: one open refund, active sum within the amount, one event |
| `LedgerSteps.InitiateCommit` | internal/app/refund/service.go:111-245 | an initiation that commits saw the committed parent and appended exactly one refund that the guard accepted |
| `LedgerSteps.ClaimKeeps` | internal/adapters/postgres/refund.go:163-184 | a claim keeps the invariant: attempts equal the number of claims, later claims carry higher versions, sums and events stay right |
| `LedgerSteps.FinishedParentAgrees` | internal/app/refund/process.go:167-190 | the status chosen for the parent agrees with its refund rows, and is REFUNDED exactly when all is refunded |
| `LedgerSteps.FinishTerminalKeeps` | internal/app/refund/process.go:101-144 | a terminal outcome that commits resolves the claimed refund, moves the parent and writes one event, together; otherwise nothing changes |
| `LedgerSteps.StepKeeps` | internal/app/refund/process.go:59-144 | every action of every actor keeps the invariant, moves transactions along the table and never touches a resolved refund |
| `LedgerRuns.RunKeeps` | internal/app/refund/process.go:35-144 | the invariant holds in every reachable state of every interleaving |
| `LedgerRuns.StatusesFormPath` | internal/domain/transaction/state_machine.go:19-72 | with all actors acting on any earlier snapshot, the committed statuses of a transaction are a stuttering path in the transition table |
| `LedgerRuns.NoLostUpdates` | internal/adapters/postgres/transaction.go:231-374 | over a whole run: after capture never back before it, REFUNDED and CANCELLED final, cancel request and gateway reference never lost, versions and amounts monotone |
| `LedgerRuns.LeaseAndCancelDiscipline` | internal/domain/transaction/state_machine.go:42-71 | lease fields are set only while PROCESSING; FAILED becomes CANCELLED only on a row that carries a cancel request |
| `LedgerRuns.StatusEventVersionsIncrease` | internal/app/payment/gateway.go:413-444 | status events of a transaction carry strictly increasing versions in commit order |
| `LedgerRuns.ParentAgreesWithRefunds` | internal/app/refund/process.go:101-190 | in every reachable state the parent's status says which refund rows it has: none, one open, or none open with the right sum refunded |
| `LedgerRuns.NeverOverRefunded` | internal/app/refund/service.go:193-211 | under any interleaving active refunds never sum above the amount and two are never open together |
| `LedgerRuns.RefundedExactlyWhenAllRefunded` | internal/app/refund/process.go:167-190 | the step that finishes a refund sets REFUNDED if and only if the done refunds sum to the amount |
| `LedgerRuns.ResolvedRefundsAreFrozen` | internal/domain/refund/refund.go:78-83 | a resolved refund never changes again, although the table allows FAILED to PROCESSING |
| `LedgerRuns.ExactlyOneTerminalEvent` | internal/app/refund/process.go:101-144 | every refund has exactly one initiation event, and exactly one terminal event of the right kind once resolved |
| `LedgerRuns.OlderClaimNeverPersists` | internal/adapters/postgres/refund.go:84-127 | an outcome obtained under a superseded claim changes nothing |
| `LedgerRuns.GatewayCallsWithinAttempts` | internal/adapters/postgres/refund.go:163-184 | attempts equal the number of claims, each of which makes at most one gateway call, answered or not |
| `LedgerRuns.ProratedRefundsWithinCharge` | internal/app/refund/process.go:231-236 | in every reachable state the shares of a payment's done refunds in its committed charge sum to at most the charge |
| `RefundAsks.AskStepKeeps` | internal/app/refund/process.go:101-144 | every step keeps it that the last claim of a done refund got its completion, for the refund's amount and the committed amount and charge of the parent |
| `RefundAsks.CompletedAsks` | internal/app/refund/process.go:224-258 | in every reachable state the call that completed a refund asked for exactly the committed share, although it was made from a copy of the parent |
| `RefundAsks.AsksWithinCharge` | internal/app/refund/process.go:224-258 | what those calls asked the gateway to return sums to at most the charge, or the amount where no charge is recorded |
| `StrandedRefunds.StepKeepsRefundedSum` | internal/app/refund/process.go:167-190 | under a REFUNDED parent no step completes a refund or changes the refunded sum, and a rejection commits only beside a done refund |
| `StrandedRefunds.StrandedNeverDone` | internal/app/refund/process.go:167-190 | a refund still open when its parent became REFUNDED is never done in any continuation, and stays open unless another refund was done |
| `StrandedRefunds.ResolvableIff` | internal/app/refund/process.go:167-190 | such a refund is resolved in some continuation if and only if another refund of its parent was done before |
| `StrandedRefunds.CallbackStrandsRefund` | internal/app/webhook/service.go:262-277 | a run in which a callback strands the only refund of a payment |
| `Proration.SharesBounds` | internal/app/refund/process.go:231-236 | rounding down loses less than one unit for each refund, in both directions |
| `Proration.SharesWithinCharge` | internal/app/refund/process.go:231-236 | shares of amounts within the total never exceed the charge, and n shares of the whole fall short by at most n - 1 |
| `Proration.FullRefundReturnsCharge` | internal/app/refund/process.go:231-236 | one full refund returns exactly the charge |
| `Proration.ShareTruncates` | internal/app/refund/process.go:231-236 | the share is the quotient of the 64-bit product rounded toward zero, whatever its sign |
| `Proration.FullRefundExactIff` | internal/app/refund/process.go:231-236 | a full refund returns the charge if and only if the product fits in 64 bits |
| `ReaperRuns.AttemptsOnlyByClaims` | internal/adapters/postgres/refund.go:163-184 | only a claim counts an attempt, and the relay only ever counts the first |
| `ReaperRuns.AttemptsBounded` | internal/jobs/refund_reaper/reaper.go:56-85 | with one sequential reaper, which may abandon its list, and a limit of at least two, attempts stay within the limit in every reachable state |
| `ReaperRuns.OneAttemptIsExceeded` | internal/jobs/refund_reaper/reaper.go:56-85 | a run in which a limit of one is exceeded |
| `ReaperRuns.AttemptLimitKeptIffAboveOne` | internal/jobs/refund_reaper/reaper.go:56-85 | attempts stay within the limit in all runs if and only if the limit is not one |
| `Services.Service.UpdateTransaction` | internal/adapters/postgres/transaction.go:231-302 | compare-and-swap on the version: row, remembered copy and object change together, or nothing does |
| `Services.Service.UpdateRefund` | internal/adapters/postgres/refund.go:84-127 | compare-and-swap on the version of a refund |
| `Services.Service.SumActiveRefunds` | internal/adapters/postgres/refund.go:67-82 | the loop computes the sum of open and done refunds of one transaction |
| `Services.Service.ClaimProcessing` | internal/adapters/postgres/refund.go:163-184 | succeeds exactly if the row is open with the held version; the winner's copy is the new row |
| `Services.Service.MoveAndAnnounce` | internal/app/payment/gateway.go:77-131 | transition, save and event happen together or not at all |
| `Services.Service.StartProcessing` | internal/app/payment/process.go:37-62 | succeeds exactly from a current PENDING or AUTHORIZED copy, and then sets PROCESSING with its lease |
| `Services.Service.UpdateGatewayReference` | internal/adapters/postgres/transaction.go:345-374 | writes the reference under the expected version, without bumping it |
| `Services.Service.InitiateAtGateway` | internal/app/payment/service.go:240-279 | the unversioned reference write is only visible together with the version bump of the move |
| `Services.Service.FinalizePayment` | internal/app/payment/gateway.go:58-152 | on the committed PROCESSING row: success commits CAPTURED (AUTHORIZED in the authorize flow), failure and decline FAILED, cancellation CANCELLED, each with its event; an ambiguous answer leaves it PROCESSING |
| `Services.Service.SetCancelIntent` | internal/adapters/postgres/transaction.go:306-321 | reports whether this call set the flag; if so exactly the flag of that row changes, otherwise nothing |
| `Services.Service.ProcessWebhook` | internal/app/webhook/service.go:89-215 | performs one delivery of a word: duplicates and rejected statuses change nothing; a lost race rolls back the dedup record too, so that a redelivery is processed |
| `CallbackRuns.RecordedIff` | internal/app/webhook/service.go:89-101 | in every run the record of a callback event is there exactly if some delivery of it committed |
| `CallbackRuns.AppliedAtMostOnce` | internal/app/webhook/service.go:89-101 | after a delivery that committed, every later one of the same event is a duplicate and changes nothing; one that lost a race changed nothing |
| `CallbackRuns.InboxKeeps` | internal/app/webhook/service.go:89-215 | the ledger invariant holds however callbacks and other actors interleave |
| `Services.Service.InitiateRefund` | internal/app/refund/service.go:111-245 | succeeds exactly from a current copy in one of four statuses with a positive amount within the remainder, a reason and an initiator; otherwise rolls everything back |
| `Services.Service.TransitionParent` | internal/app/refund/process.go:167-190 | computes the parent's status from the rows inside the transaction |
| `Services.Service.Finish` | internal/app/refund/process.go:101-144 | performs the ledger's finish action, with a full rollback on any conflict |
| `Services.Service.RunRefund` | internal/app/refund/process.go:59-144 | performs claim, answer and finish; the loser of a claim does nothing |
| `Services.Service.FindOldest` | internal/adapters/postgres/refund.go:193-198 | finds the stale refund not listed yet that was updated longest ago |
| `Services.Service.ListStaleRefunds` | internal/adapters/postgres/refund.go:189-216 | lists the open refunds below the attempt limit last updated before the cutoff, oldest first, up to the batch limit, leaving out none that is older than a listed one |
| `Services.Service.RetryAll` | internal/jobs/refund_reaper/reaper.go:65-84 | the loop drives every listed refund in process exactly once |
| `Services.Service.ReapOnce` | internal/jobs/refund_reaper/reaper.go:56-85 | alone, drives every listed refund in process exactly once more, within the attempt limit, and touches no other |
| `Services.DriveKeeps` | internal/app/refund/process.go:59-144 | a drive keeps the invariant, touches one refund, and counts one attempt exactly if its copy was current |
| `Idempotency.Guard.Reserve` | internal/adapters/postgres/idempotency.go:20-28 | claims the key exactly if it is free |
| `Idempotency.Guard.Complete` | internal/adapters/postgres/idempotency.go:43-50 | stores the response with the key |
| `Idempotency.Guard.Run` | internal/app/idempotency/idempotency.go:48-87 | Created stores and answers exactly the operation's response, Replayed the stored one; whatever was reserved is rolled back unless the verdict is Created, and an error comes exactly from a failing operation on a free key |
| `Idempotency.RowIsFrozen` | internal/adapters/postgres/idempotency.go:20-50 | a key's row never changes while it is retained |
| `Idempotency.NoneInProgress` | internal/app/idempotency/idempotency.go:48-87 | the guard never leaves a committed row in PROCESSING |
| `Idempotency.CommitsOnceThenReplays` | internal/app/idempotency/idempotency.go:48-87 | after a commit, every later call with the same hash replays exactly that response, another hash is refused, and nothing changes |
| `Idempotency.CommitsAtMostOnce` | internal/app/idempotency/idempotency.go:48-87 | while a key is retained its operation commits at most once, and exactly once if the key came to be there |
| `Idempotency.PurgedKeyIsFree` | internal/adapters/postgres/idempotency.go:52-75 | once a key is released, swept or expired, the next operation under it commits |
| `Idempotency.JoinParts` | internal/app/idempotency/idempotency.go:93-102 | the builder loop joins the parts with the separator |
| `Idempotency.ToldApartIff` | internal/app/idempotency/idempotency.go:93-102 | a request is told apart from every other of equal arity if and only if it has at most one part or none of its own parts holds the separator |
| `Idempotency.Collision` | internal/app/idempotency/idempotency.go:93-102 | every other request has a different one of equal arity with the same digest input |
| `Idempotency.SeparatorInPartCollides` | internal/app/idempotency/idempotency.go:93-102 | two concrete requests that differ and are not told apart |
| `CancelResolution.GuardedInitiation` | internal/app/refund/service.go:142-189 | a guarded initiation leaves everything alone, or takes a free key and inserts one refund by a legal ledger step |
| `CancelResolution.OneSystemRefund` | internal/app/refund/process.go:192-222 | while the key is retained, any number of racing resolvers insert at most one system refund for a transaction, and the ledger invariant holds throughout |
| `CancelResolution.ResolverInserts` | internal/app/refund/process.go:192-222 | a resolver that finds the key free and the payment refundable inserts the system refund, and the key answers with it |
| `CancelResolution.SweptKeyAllowsAnother` | internal/adapters/postgres/idempotency.go:52-75 | once the key is swept only the remainder limits another system refund |
| `HashRing.Search` | internal/relay/ring/ring.go:67 | binary search finds the first position at or after the shard's |
| `HashRing.SortByPosition` | internal/relay/ring/ring.go:63 | the sorted ring holds exactly the nodes given, in strictly increasing order |
| `HashRing.BuildNodes` | internal/relay/ring/ring.go:53-62 | the loop appends exactly the virtual nodes of all workers |
| `HashRing.WalkFrom` | internal/relay/ring/ring.go:74-86 | the wrap-around loop ends, with the first distinct workers clockwise |
| `HashRing.Walk` | internal/relay/ring/ring.go:65-87 | search and walk give the owners of a position |
| `HashRing.ReplicaSets` | internal/relay/ring/ring.go:43-89 | computes the owners of every shard |
| `HashRing.OwnedShards` | internal/relay/ring/ring.go:29-38 | returns exactly the shards the worker owns on the ring it built, in increasing order |
| `HashRing.WalkMeetsEveryWorker` | internal/relay/ring/ring.go:74-86 | a walk once around meets every worker exactly once |
| `HashRing.OwnersCount` | internal/relay/ring/ring.go:29-89 | every shard has exactly two distinct owners in range, or the only worker |
| `HashRing.ScaleOutOnlyAddsNewWorker` | internal/relay/ring/ring.go:25-28 | adding a worker leaves a shard's owners unchanged or adds the new worker in place of the last; no shard moves between existing workers |
| `HashRing.SameRing` | internal/relay/ring/ring.go:58-63 | all workers build the same ring |
| `HashRing.ShardIndex` | internal/adapters/postgres/outbox.go:55-59 | the remainder of the hash: below the shard count, and a multiple of it away |
| `HashRing.EveryEventIsPolled` | internal/adapters/postgres/outbox.go:43-59 | the shard of every written event is in the sets OwnedShards returns to exactly two of the workers, or to the only one |
| `RelayWorker.PollOwned` | internal/relay/relay.go:109-120 | a worker polls only rows whose shard it owns on the ring, and unless the batch is full every due and visible row of its shards |
| `IsoWeek.YearAndDay` | internal/jobs/partition_manager/manager.go:165-168 | the civil year and day of any day of the proleptic Gregorian calendar |
| `IsoWeek.WeekStart` | internal/jobs/partition_manager/manager.go:158-163 | the Monday midnight on or before an instant, less than a week away |
| `IsoWeek.WeeksCountThursdays` | internal/jobs/partition_manager/manager.go:165-168 | the ISO rule: a week belongs to the year of its Thursday, and its number is one more than the Thursdays of that year before it, so at most 52 or 53 as the year has Thursdays |
| `IsoWeek.IsoWeekRoundTrip` | internal/jobs/partition_manager/manager.go:178-183 | the Monday computed from 4 January for a day's ISO year and week is the day's own Monday |
| `IsoWeek.ScanSigned` | internal/jobs/partition_manager/manager.go:170-176 | a number in a name is read with its sign and all its digits, and refused when it does not fit in 64 bits |
| `IsoWeek.NamingRoundTrip` | internal/jobs/partition_manager/manager.go:158-183 | the week end read back from a partition name is seven days after the start of the week it was made for |
| `IsoWeek.NamesTileTime` | internal/jobs/partition_manager/manager.go:72-77 | names are injective on weeks, and consecutive partitions meet with no gap |
| `IsoWeek.NameValidUpTo9999` | internal/jobs/partition_manager/manager.go:152-156 | the store accepts a week's name exactly when its ISO year has at most four digits |
| `Outbox.StepKeeps` | internal/relay/relay.go:122-180 | every step of writer, worker, publisher and partition manager keeps the outbox invariant |
| `Outbox.RunKeeps` | internal/relay/relay.go:109-180 | the invariant holds in every reachable state |
| `Outbox.DeliveredOrDeadLettered` | internal/adapters/postgres/outbox.go:112-188 | a PUBLISHED row was published; a FAILED row has exactly one dead letter with its payload; other rows have none |
| `Outbox.NothingUndeliveredIsDropped` | internal/jobs/partition_manager/manager.go:91-150 | no PENDING, PUBLISHING or FAILED row is ever in a detached or dropped partition, as long as replica lag and the age of open writers together are at most the retention period and a week |
| `Outbox.OutcomesAreFinal` | internal/adapters/postgres/outbox.go:112-188 | published and failed rows stay so, and rows keep payload, shard and partition |
| `OutboxDelivery.DeliveredWasAccepted` | internal/relay/relay.go:122-180 | in every run an event counts as delivered exactly if the publisher accepted it, with its payload, at an earlier step |
| `OutboxDelivery.DueRowCanBeDelivered` | internal/relay/relay.go:109-180 | from any state a due and visible row can be polled, accepted and marked published |
| `OutboxDelivery.JobsCanGoOn` | internal/jobs/partition_manager/manager.go:132-150 | events can always be written, and a partition detached and logged long enough ago can be dropped |
| `OutboxDelivery.WriteAddsRow` | internal/adapters/postgres/outbox.go:75-110 | a write adds one PENDING row as it was written, in the partition of the week its transaction began in or the default one |
| `OutboxDelivery.ReplayAddsRow` | internal/adapters/postgres/outbox.go:238-299 | a replayed dead letter becomes a new event with its payload, and the letter stays |
| `OutboxDelivery.NoEventIsLost` | internal/relay/relay.go:109-180 | in every later state a written event was accepted by the publisher, or has exactly one dead letter, or waits in an attached partition, always with its payload and shard |
| `Outbox.CountedAfterWeek` | internal/adapters/postgres/partition_store.go:99-109 | then a count that permits detaching was taken when no writer begun in the week could still be open |
| `OutboxLag.SafeIffLagFits` | internal/adapters/postgres/partition_store.go:99-109 | nothing undelivered is lost in any run if and only if replica lag and the age of open writers together are at most the retention period and one week |
| `OutboxLag.StaleCountDetaches` | internal/adapters/postgres/partition_store.go:99-120 | the losing run, for every configuration beyond that bound |
| `OutboxJobs.Jobs.FindNext` | internal/adapters/postgres/outbox.go:204-216 | finds a claimable row that none precedes in attempts, then creation time |
| `OutboxJobs.Jobs.PollPending` | internal/adapters/postgres/outbox.go:190-236 | every polled row is of the given shards, due, and pending or held beyond the claim time; a visible such row is left over only when the batch is full and no polled one has more attempts or is younger |
| `OutboxJobs.Jobs.ProcessEvent` | internal/relay/relay.go:122-180 | performs the answer and mark steps of one event |
| `OutboxJobs.Jobs.RunOnce` | internal/relay/relay.go:109-120 | alone, every polled row gets the outcome of its own publish, no other row changes, no due row is left over unless the batch is full, and the counters are right |
| `OutboxJobs.Jobs.PreCreate` | internal/jobs/partition_manager/manager.go:72-89 | every instant of the weeks ahead lies in an attached partition, and existing ones are untouched |
| `OutboxJobs.Jobs.DetachStale` | internal/jobs/partition_manager/manager.go:91-130 | on counts from the lagging replica exactly the old partitions counted empty of undelivered rows are detached, and nothing undelivered is lost |
| `OutboxJobs.Jobs.FindDropDue` | internal/adapters/postgres/partition_store.go:140-163 | a partition is due exactly if a detachment was logged before the cutoff and no drop |
| `OutboxJobs.Jobs.DropOne` | internal/jobs/partition_manager/manager.go:132-150 | a partition is dropped, and the drop logged, exactly if it is due; nothing undelivered is lost |
| `TokenBucket.EffectiveRate` | internal/adapters/valkey/rate_limiter.go:108-123 | a positive rate is passed on as it is, any other replaced by the least one |
| `TokenBucket.Script` | internal/adapters/valkey/scripts.go:8-59 | the two loops compute the decision, the longest wait and the new store |
| `TokenBucket.CallKeepsValid` | internal/adapters/valkey/scripts.go:33-57 | tokens stay between zero and the capacity |
| `TokenBucket.AdmittedWithinWindow` | internal/adapters/valkey/scripts.go:8-59 | for every key, run and window, admitted calls number at most capacity plus rate times the window |
| `TokenBucket.DeniedSpendsNothing` | internal/adapters/valkey/scripts.go:49-57 | a denied call spends nothing from any bucket: no later call can tell it was made |
| `TokenBucket.ExpiryChangesNoDecision` | internal/adapters/valkey/scripts.go:13-18 | after any run, a store that forgets expired buckets gives the same decision and wait as one that never forgets |
| `TokenBucket.ExpiryInvisibleIff` | internal/adapters/valkey/scripts.go:13-18 | for the script with any rate, expiry is invisible in all runs if and only if the rate is positive or the capacity is below one |
| `TokenBucket.KeptBeyondFull` | internal/adapters/valkey/scripts.go:13-18 | a bucket is kept ten to eleven seconds beyond the time an empty one takes to fill, and an hour if it does not refill |
| `TokenBucket.WaitIsLeast` | internal/adapters/valkey/scripts.go:37-46 | the returned wait is the least number of milliseconds after which the same call is admitted; beyond the capacity no wait suffices |
| `Breaker.CircuitBreaker.Transition` | internal/domain/gateway/gateway.go:84-115 | moves only along the table, with the count and cooldown of the new state |
| `Breaker.CooldownsAgree` | internal/adapters/valkey/scripts.go:92-98 | the script's cooldown is the domain's for every failure count: one, two, then four minutes |
| `Breaker.ScriptsFollowTable` | internal/adapters/valkey/scripts.go:61-119 | every run of the scripts is a stuttering path in the domain's table |
| `Breaker.ClosedCountsFailures` | internal/adapters/valkey/scripts.go:82-119 | while CLOSED the stored count is the failures since the last success or close, and below the threshold |
| `Breaker.OpensExactlyAtThreshold` | internal/adapters/valkey/scripts.go:82-103 | it opens exactly on the threshold-th failure, with the domain's cooldown |
| `Breaker.HalfOpenDecides` | internal/adapters/valkey/scripts.go:82-119 | half-open reopens on any failure and closes on any success |
| `Breaker.OpenWaitsForProbe` | internal/adapters/valkey/scripts.go:61-119 | open is left only by a move to half-open; failures count on, and a success clears count and cooldown without closing |
| `Breaker.BreakerStore.RecordFailure` | internal/adapters/valkey/circuit_breaker.go:97-111 | reports opening exactly when the record opens, and the stored count |
| `Breaker.BreakerStore.RecordSuccess` | internal/adapters/valkey/circuit_breaker.go:113-120 | performs the success step on the record |
| `Breaker.BreakerStore.SetScore` | internal/adapters/valkey/circuit_breaker.go:137-145 | changes the score and nothing else |
| `Breaker.BreakerStore.Transition` | internal/adapters/valkey/circuit_breaker.go:62-95 | decides on the stored state, and leaves the caller's object equal to the record |
| `KeysetPaging.CursorRoundTrip` | internal/adapters/postgres/transaction.go:592-606 | parsing a printed cursor gives back the row position |
| `KeysetPaging.CursorAcceptedIff` | internal/adapters/postgres/transaction.go:592-606 | a cursor is accepted exactly when it splits at its last colon into a time and an id that parse |
| `KeysetPaging.PageSize` | internal/adapters/postgres/transaction.go:497-501 | the page size is the limit when that is between 1 and 100, and 50 otherwise |
| `KeysetPaging.List` | internal/adapters/postgres/transaction.go:497-589 | a page is the first rows below the cursor, with a next cursor exactly if there are more |
| `KeysetPaging.ListAll` | internal/app/reconciliation/service.go:199-218 | on a fixed table paging ends and collects every matching row exactly once, newest first, for any limit |
| `Reconciliation.CompareDecides` | internal/app/reconciliation/service.go:291-330 | no finding if and only if status, amount and known fees agree; otherwise it tells both sides as they are and the first thing that differs |
| `Reconciliation.IndexByRef` | internal/app/reconciliation/service.go:225-230 | the index holds the last transaction of every non-empty reference |
| `Reconciliation.ReconcileBatch` | internal/app/reconciliation/service.go:225-280 | the loops compute the findings |
| `Reconciliation.CleanIff` | internal/app/reconciliation/service.go:225-280 | nothing is found if and only if references are usable and unique, every entry matches an agreeing transaction, and every transaction is reported |
| `Reconciliation.FindingsExact` | internal/app/reconciliation/service.go:225-280 | with unique references a finding, with its contents, is reported exactly for a disagreeing pair, an unmatched entry or an unreported transaction |
| `Reconciliation.ReconcilePeriod` | internal/app/reconciliation/service.go:183-281 | end to end from the paged table: an empty result means exactly that both sides agree, one to one |
| `Envelope.DecodeEncode` | internal/adapters/encryption/envelope.go:151-185 | decoding undoes encoding if and only if both lengths fit their fields |
| `Envelope.EncodeDecode` | internal/adapters/encryption/envelope.go:164-185 | every accepted blob re-encodes to itself |
| `Envelope.Layout` | internal/adapters/encryption/envelope.go:151-162 | the byte layout: version, big-endian key length, key, nonce length, nonce, ciphertext |
| `Envelope.AcceptedIffEncoded` | internal/adapters/encryption/envelope.go:164-185 | a blob is accepted exactly when it is the encoding of fitting parts, which are unique |
| `Envelope.Effective` | internal/adapters/encryption/envelope.go:45-63 | each value that is set is kept, each other one replaced by its default |
| `Envelope.CacheAlwaysAgrees` | internal/adapters/encryption/envelope.go:94-132 | after any operations every cached AEAD, and the current one, is that of the unwrapped key |
| `Envelope.CacheIsInvisible` | internal/adapters/encryption/envelope.go:117-132 | decryption answers as if there were no cache, for every blob, time and history |
| `Envelope.CachedThroughOutage` | internal/adapters/encryption/envelope.go:117-132 | a blob decrypted while the key manager answered is answered alike without it, at least until that time |
| `Envelope.DecryptIsAuthentic` | internal/adapters/encryption/envelope.go:78-92 | after any operations a plaintext is answered only if the blob encodes parts whose key unwraps to a data key of AES size that authenticates the ciphertext to it, and then it is answered as long as the key manager does; a format error exactly if nothing encodes to the blob |
| `Envelope.DecryptInvertsEncrypt` | internal/adapters/encryption/envelope.go:65-92 | decryption inverts encryption through any rotations and cache expiries |
| `Envelope.SealsWithinLimit` | internal/adapters/encryption/envelope.go:94-115 | no data key seals more than the allowed number of messages |
| `Envelope.SealedWithinLifetime` | internal/adapters/encryption/envelope.go:94-115 | every message of a run is sealed no later than the time its data key was taken into use plus the key's time to live |
| `Envelope.DekCache.Get` | internal/adapters/encryption/envelope.go:203-217 | answers an entry up to its expiry and removes it afterwards |
| `Envelope.DekCache.Put` | internal/adapters/encryption/envelope.go:219-223 | stores the entry with its expiry |
| `Envelope.EnvelopeCipher.UseDEK` | internal/adapters/encryption/envelope.go:94-115 | refines the specification of the current data key |
| `Envelope.EnvelopeCipher.FindAead` | internal/adapters/encryption/envelope.go:117-132 | refines the specification of the lookup with its cache |
| `Envelope.EnvelopeCipher.Seal` | internal/adapters/encryption/envelope.go:65-76 | refines encryption |
| `Envelope.EnvelopeCipher.Open` | internal/adapters/encryption/envelope.go:78-92 | refines decryption, error cases included |
## Left out

- HTTP handlers, middleware, gateway clients, SNS, SMTP, TLS, observability, configuration and wiring: input and output, or thin plumbing.
- SQL, JSON and UUIDs: a guarded statement is one atomic map or sequence update, ids are natural numbers, and isolation levels inside one transaction are not modelled.
- Hashes and ciphers: SHA-256 and the AEAD are parameters (injective; open inverts seal), FNV positions of virtual nodes are taken to be pairwise distinct because the source's sort leaves ties open.
- Floating point: tokens, rates and waits are real numbers.
- Fee calculation and gateway scoring: rounding of binary floating point is their whole point.
- The rate limiter's local fallback: its check and its debit lock separately, so the window bound does not carry over.
- Cancel refunds started from a callback inside the callback's own open transaction: the resolver called after commit is modelled.
- Liveness: not every cancel request leads to a refund, not every PROCESSING payment has a lease to expire, and a parent may rest in REFUND_PENDING after a failed refund that follows a partial one; only safety is stated.
- Dispute rows, notifications, tenant webhooks, audit entries, the dispute-created event and events that carry no new status: a dispute appears as moves of its parent.
- Payment leases taken from the lease store, intents and gateway fallback order: any lease value may be written, and any gateway answer may arrive.
- Job bookkeeping, single-transaction reconciliation and resolution of entries: they add no harder property; exchange rates are not carried in findings.
- Replay of a dead letter at most once, and a bound on outbox attempts across reclaimed claims: the source does not have them.
- The advisory lock of the partition manager, and a default partition whose rows block the creation of a week's partition: creation and detachment are steps that may happen at any time.
- White space that the source's name scanner skips before a number: partition names are scanned without it.
- LedgerRuns.NeverOverRefunded: a refund is initiated only with an amount whose sum with the active refunds fits 64 bits, as the guard needs.
- LedgerRuns.ProratedRefundsWithinCharge: the product of charge and amount fits 64 bits, and gateway amounts are not negative.
- RefundAsks.AsksWithinCharge: counts the calls whose completion was persisted; a call made from an out-of-date parent asks for that copy's share, but its outcome is never persisted, and repeated calls for one refund rely on the gateway's own key.
- LedgerRuns.ParentAgreesWithRefunds: nothing is said of a parent that a callback or a lost dispute set to REFUNDED, since these do not look at refund rows.
- Services.Service.ListStaleRefunds: update times are a parameter, not a column of the model.
- Services.Service.SetCancelIntent: who asked for the cancellation, and when, is not stored.
- OutboxJobs.Jobs.PollPending: rows locked by another worker at the same moment are not skipped, since a poll is one step.
- OutboxJobs.Jobs.DetachStale: the list of names comes from the caller, and the log entry that follows each detachment is a step of the protocol.
- OutboxJobs.Jobs.RunOnce: states the result with no other worker in between; interleavings are in the protocol.
- Reconciliation.ReconcilePeriod: transactions are loaded in the order they were listed; the comparison's theorems hold for any order. Time stamps and ids print and parse through a codec assumed faithful, and the table does not change meanwhile.
- CancelResolution.OneSystemRefund: the check for an existing refund before the guard is a stale read that can only skip work, and is not modelled; after the key is swept nothing is claimed.
- Envelope.CacheIsInvisible: one clock reading for each operation, and operations are atomic.
