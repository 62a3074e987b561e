# Verified model of the platform core

A Dafny model of the six components whose behaviour spans many calls: the quota ledger, billing
orders and metered overage, the rendered-page cache with its invalidation and its streaming HTML
injector, the log ring, money strings and the cross-instance relay, and the authorization
evaluator with its operation catalog. Code that computes a value is a function; code that changes
state step by step is a class whose methods are proved equal to a function of the old state; loops
are loops. Concurrent protocols are transition systems, and their results hold for every schedule.

| modules | component |
|---|---|
| `Common`, `Sequences`, `Ordering`, `Permutations` | optional values and int64 wrap-around; distinct sequences and their newest part; Go's string order and sorting; rearrangements |
| `QuotaTables`, `QuotaLedger`, `QuotaRuns`, `QuotaOutcomes`, `QuotaReplays`, `QuotaConcurrency`, `QuotaAlone`, `QuotaService` | the SQL statements as updates of tables; the ledger invariant; runs of whole operations; what each call answers; retried calls; Reserve as interleaved micro-steps; a Reserve nobody interferes with; the service methods |
| `BillingRepo`, `BillingPaid`, `BillingOrders`, `BillingActions`, `BillingCalls`, `BillingRenewal`, `BillingService`, `BillingAmounts`, `BillingEndings`, `Metering` | compare-and-set repository calls; the paid handler call by call and its restart; interleavings, and their actions field by field; calls that read an order and write it later; renewal and cancellation events; the handlers; what an event's amount and references decide; refunds and cancellations as single calls; overage arithmetic and its billing run |
| `Paths`, `PathGrammar`, `PageCache`, `PageServing`, `Invalidation`, `ShellMeta`, `ShellLadder` | patterns, paths and cache keys, and which there are; memory LRU over disk, and how long it serves what; dependency closure and tombstones; the injector, and where its fallback goes |
| `LogRing`, `LogCounters`, `Money`, `MoneyText`, `Relay` | ring buffers, and where the entries went; parsing and formatting amounts, and the characters they depend on; the hop-capped broadcast |
| `Evaluator`, `DecisionTable`, `Catalog`, `CatalogRules`, `CatalogOrder`, `Authorization` | the staged evaluator, and its refusals as a table; validation and normal form, and which operations are in order; what the hash depends on; evaluation against a validated catalog |

## Where the code departs from what one might expect

Each of these rests on the lemmas named with it. Where a promise holds only sometimes, a lemma ending in
`Iff` (or one described as "exactly when") gives the deciding condition; the others are witnesses.

- Quota: `Release` with a negative count consumes past the limit (`NegativeReleaseBreaksBound`). Which
  calls keep the capacity bound is stated exactly, by conditions on the call and the counter it finds
  (`BoundKeptIffDisciplined`): settlements may exceed what is outstanding by at most the capacity
  left, releases may take back at most that, grants must not be negative.
- Quota: Go's availability test computes in wrapping int64. It refuses units that fit exactly when the
  true difference exceeds int64, and admits units that do not fit exactly when the counter is over its
  capacity by more than 2^63 and at most 2^64 minus the amount (`AvailabilityDecidesRightlyIff`). A
  reachable state of the second kind is shown (`OverAdmissionHappens`).
- Billing: a paid handler can be rerun after any prefix of its calls, but a redelivery reruns it
  only if the stored event is in error. A handler that dies without recording its error is not
  resumed (`RedeliveryResumesIffErrored`, `CrashAfterPayIsNotResumed`).
- Billing: the refund handler is not restartable. Once the status is written a rerun only marks the
  event (`RefundRerunSkipsDowngrade`), so it comes to the same exactly when the calls that were missed
  had nothing to take away (`RefundRestartsIff`).
- Billing: a refunded order does not imply the free plan. Its plan can still be granted exactly when a
  handler stands between the payment and the grant of that order at that moment
  (`RefundOvertakenIff`; a schedule from an empty system is `RefundMayBeOvertaken`). A renewal gives it
  back exactly when the refund event named no subscription (`RenewalRevivesRefundIff`; a concrete run
  is `RenewalRevivesRefund`).
- Billing: nothing in the code keeps two workspaces from carrying one subscription reference. Where
  they do, a rerun may find the other one: a renewal then restarts exactly when the lookup's answer
  does not matter (`RenewalRestartsIff`), a cancellation ends a second workspace. Apart from that, a
  cancellation interrupted between dropping the subscription and clearing the cancel mark leaves a
  set mark behind for good (`CancellationRestartsIff`). A renewal that finds the workspace on the
  free plan grants the plan of the order the event names without looking at that order's status or
  workspace (`RenewalTouchesOneWorkspace`).
- Pages: "/" and "/index" are built into one file, index.html, and no other two paths share one
  (`PageFilesCollideOnlyAtTheRoot`). Tombstones are kept by path, so after a successful invalidation of
  "/" alone the embedded root page is still served under /index (`ServeAfterInvalidate`).
- Injector: the reach is one byte longer than a tag ending within the scan limit: the tag's last
  byte may be the byte at the limit's offset. Beyond that the output depends on the chunking
  (`ResponseIsChunkIndependent`, `OutOfReachDependsOnChunks`).
- Paths: a matched path is restored by expansion if and only if every captured value is whitelisted
  and parameters of the same name captured the same text (`MatchThenExpand`). A valid pattern may
  hold characters the cache key refuses; invalidating it then reports failure
  (`Invalidate`, whose success condition is the predicate `Forgettable`).
- Money: MinInt formats with two signs and parses to 0 (`MinIntDoesNotParse`).
- Authorization: `NewEvaluator` validates the normalized catalog and keeps the one it was given.
  An operation whose `recent_auth` is left out passes validation as `none`, but the built-in rule
  challenges every caller of it who must sign in, tokens and machines included
  (`ValidationIgnoresOmissions`, `NonSessionChallengedIffOmitted`, `OmittedRecentAuthShutsOut`, and
  concretely `OmissionPassesAndShutsOut`).
  Product rules of the authentication stage are never asked about anonymous operations
  (`AllowedIffEveryStageClear`, by the predicate `Objects`).
  A recent-auth window whose nanoseconds overflow never admits anything older than declared
  (`WindowNeverWidens`), and can be met by signing in again exactly when it has not become negative
  (`ChallengeCanBeMet`).

## Assumptions

- Reservation and order ids are row indices in insertion order. Unique keys are those the statements'
  conflict clauses name; the migrations are not part of this model. SQL sums of grants are exact, and
  a bigint overflow fails the statement. Row locks are derived from which transactions are open.
- Clocks, periods, the rows skipped as locked, loaders, usage figures and the facts provider's answer
  are parameters. Storage failures are steps that may happen anywhere.
- The lookup of a subscription reference may answer any workspace that carries it, and another one
  each time; which one is a parameter. So are the catalog's current price of a renewed order and the
  new expiry.
- Strings are sequences of characters compared as Go compares strings; case folding covers the
  characters that fold to ASCII letters. Response bodies are byte sequences.
- Cache and ring operations are atomic. A disk file is either a page entry or something else, by name.
- Relay instances have distinct ids; scope and frame do not matter to the protocol.

## Model

| member | source | states |
|---|---|---|
| `QuotaService.Service.ConsumeOnce` | quota/consume.go:105-135 | the hard and soft upserts on the live tables are the specified table update, applied or not, or a storage failure that changes nothing |
| `QuotaService.Service.Consume` | quota/consume.go:35-103 | a whole consume call, with and without an idempotency key: a refused or failed attempt leaves no key behind, a replay changes nothing |
| `QuotaService.Service.ReserveTx` | quota/reservation.go:137-220 | the transaction as one table update: replay, refusal, or one charged counter and one new row |
| `QuotaService.Service.Reserve` | quota/reservation.go:93-135 | the call with its fast path and its fail-open outcome |
| `QuotaService.Service.Settle` | quota/reservation.go:222-282 | settlement of the live tables equals the specification, replays and refusals included |
| `QuotaService.Service.ReleaseReservation` | quota/reservation.go:284-344 | partial and full release, replays and refusals; `QuotaReplays.ReleaseReplays` says that the key is remembered, `QuotaOutcomes.ReleaseAnswers` what is answered |
| `QuotaService.Service.ExpireDueReservations` | quota/reservation.go:346-410 | the rows taken are the due, unlocked ones, earliest first up to the limit, and the batch is the grouped update for exactly those rows |
| `QuotaService.SelectDue` | quota/reservation.go:349-372 | the selection loop returns the due batch in expiry order, without repeats, and misses a due row only when the limit is reached |
| `QuotaService.DueBatchMeaning` | quota/reservation.go:356-363 | such a batch in the fields: reserved, expiry not after now, not locked, each row once, earliest expiry first and older rows before younger ones; a due row is left out only for limit others before it |
| `QuotaService.BatchArrays` | quota/reservation.go:374-397 | the four parallel arrays describe the selected rows position by position |
| `QuotaService.GroupedCountersExpire` | quota/reservation.go:383-397 | the grouped counter update computed from those arrays is the expiry of exactly those rows |
| `QuotaService.Service.Release` | quota/quota.go:152-158 | giving consumed units back, clamped at zero |
| `QuotaService.Service.Grant` | quota/quota.go:160-178 | a grant is added once per dedup key, a blank reference is refused |
| `QuotaLedger.ClampNeverBites` | quota/reservation.go:261-337 | an open reservation's outstanding amount is covered by its own counter, so neither clamp changes a value |
| `QuotaLedger.GroupSumCovered` | quota/reservation.go:356-397 | nor does the clamp of a batched expiry: the grouped sum is covered by the counter |
| `QuotaLedger.HardUpsertAppliesIffFits` | quota/consume.go:105-135 | the two-branch statement affects a row exactly when used + reserved + n <= limit + grants, a missing row counting as zeros; it fails only on bigint overflow |
| `QuotaLedger.AvailabilityDecidesRightlyIff` | quota/reservation.go:171-195 | for all column values: the wrapping int64 test refuses units that fit if and only if the true difference exceeds int64, and admits units that do not fit if and only if the counter is over its capacity by more than 2^63 and at most 2^64 minus the amount |
| `QuotaLedger.AvailabilityNeverOverAdmits` | quota/reservation.go:171-195 | on a counter at most 2^63 over its capacity whatever is admitted fits, and for capacities within int64, as the 1<<62 unlimited value with grants below 2^62 gives, the difference is exact |
| `QuotaConcurrency.OverAdmissionHappens` | quota/reservation.go:171-195 | from empty tables an unlimited hold, a soft consume and a plan with limit 0 lead to a state where one more unit is admitted |
| `QuotaRuns.ApplyKeepsLedger` | quota/reservation.go:191-397 | every operation keeps each counter's reserved equal to the outstanding amounts of the open reservations of that workspace, period and key, with 0 <= released <= amount and released status exactly at equality |
| `QuotaRuns.ApplyFrame` | quota/reservation.go:191-397 | an operation changes no counter outside the ones it touches, and no row's key, counter or amount |
| `QuotaRuns.BoundKeptIffDisciplined` | quota/consume.go:105-135 | under a fixed hard limit an operation keeps used + reserved <= limit + grants if and only if it is a consume, reservation, partial release or expiry, or one of the next three within its condition |
| `QuotaRuns.SettleKeepsBoundIff` | quota/reservation.go:249-275 | a settlement that is carried out keeps the bound exactly when it exceeds what is outstanding by at most the capacity left |
| `QuotaRuns.CarriedOutIff` | quota/reservation.go:222-282 | a settlement is carried out exactly for an open row, a non-negative amount, a key and a sum that fits bigint; a grant is added exactly with a reference that is not blank and a dedup key not in the table |
| `QuotaRuns.GrantKeepsBoundIff` | quota/quota.go:160-178 | a grant exactly when it is not added or not negative |
| `QuotaRuns.UsualCallsAreDisciplined` | quota/reservation.go:249-275 | settling at most what is outstanding and releasing or granting nothing negative meets those conditions |
| `QuotaRuns.UnconsumeKeepsBoundIff` | quota/quota.go:152-158 | a release of n consumed units keeps the bound exactly when it is not carried out or -n is at most the capacity left, hence always for n >= 0 |
| `QuotaRuns.KeyedConsumeChargesOnce` | quota/consume.go:65-103 | over any run an idempotency key is charged once if the run put it there, and never if it was there before |
| `QuotaRuns.ReplayedConsumeChargesNothing` | quota/consume.go:35-103 | a consume that is a replay or refused changes nothing; one that goes through adds exactly its units |
| `QuotaRuns.GrantCreditsOnce` | quota/quota.go:160-178 | over any run a grant's dedup key is credited at most once, and not again if it was there before |
| `QuotaRuns.TerminalRowFrozenForever` | quota/reservation.go:249-257 | settled, released and expired are absorbing over every run |
| `QuotaRuns.ReportsSumToReleased` | quota/reservation.go:308-343 | conservation: the amounts reported by non-replayed releases sum to the row's released amount |
| `QuotaRuns.RemainingIsOutstanding` | quota/reservation.go:308-343 | the remaining amount reported is what is outstanding afterwards, a replay changes nothing, a partial release moves exactly its amount |
| `QuotaReplays.ReleaseReplays` | quota/reservation.go:308-343 | a release that succeeded is a replay from then on: whatever amount the retry asks for, it frees nothing, changes nothing and reports what is outstanding |
| `QuotaReplays.KeyedReleaseFreesOnce` | quota/reservation.go:308-343 | over any run at most one release per reservation and key goes through: exactly one if the run taught the row the key, none if the row knew it |
| `QuotaReplays.SettleReplays` | quota/reservation.go:249-282 | a settlement that succeeded is answered with its own amount from then on; another key, or a release under an unknown one, is refused |
| `QuotaReplays.SettledAtMostOnce` | quota/reservation.go:249-282 | over any run a reservation is settled at most once, under whatever keys |
| `QuotaReplays.ReserveReplays` | quota/reservation.go:93-107 | a reservation that succeeded is answered with its id from then on, whatever amount, period and expiry the retry names |
| `QuotaReplays.ConsumeReplays` | quota/consume.go:67-103 | a keyed consume that succeeded is a replay from then on |
| `QuotaReplays.GrantReplays` | quota/quota.go:169-200 | a grant that was accepted is known from then on, whatever amount the retry names |
| `QuotaOutcomes.ConsumeAnswers` | quota/consume.go:35-135 | replayed exactly for a used key; otherwise a soft plan lets it through and a hard one exactly if used + reserved + n is within limit and grants; the rest is told apart as exhausted or a failed statement |
| `QuotaOutcomes.ReserveAnswers` | quota/reservation.go:137-220 | for a capacity within int64 and a counter at most 2^63 over it, a reservation that is neither invalid nor a replay is admitted exactly if used + reserved + amount is within limit and grants |
| `QuotaOutcomes.SettleAnswers` | quota/reservation.go:222-282 | a settlement's answer by its arguments, the row's status and key, and the sum |
| `QuotaOutcomes.SettleCounter` | quota/reservation.go:259-282 | a settlement that is carried out adds the use to the reservation's own counter and takes the hold off, never below 0, and closes that row; nothing else changes |
| `QuotaOutcomes.ReleaseAnswers` | quota/reservation.go:284-344 | a release's answer: a known key is a replay whatever became of the row; else an open row gives back the amount asked for, or all that is left |
| `QuotaOutcomes.ReleaseUndoesConsume` | quota/quota.go:152-158 | releasing what was just consumed restores the counter |
| `QuotaOutcomes.HoldEndsWithoutTrace` | quota/reservation.go:222-410 | releasing all of the newest hold, or letting it expire, restores the counter it was charged to; settling it leaves exactly the actual use |
| `QuotaRuns.SettleMovesHoldToUsed` | quota/reservation.go:249-275 | a settlement adds the actual use and frees the whole hold on the counter the reservation was made on, whatever month it is made in |
| `QuotaRuns.BatchIsOneAtATime` | quota/reservation.go:356-397 | one batched expiry equals expiring its rows one at a time, in any order |
| `QuotaConcurrency.LedgerHoldsThroughout` | quota/reservation.go:137-220 | the ledger invariant holds in every state any interleaving of micro-steps, other operations, plan edits and storage failures reaches |
| `QuotaConcurrency.AtMostOneReservationPerKey` | quota/reservation.go:93-220 | of concurrent calls with one (workspace, key, idempotency key), on whatever counters, at most one is given a new reservation and every other success returns its id |
| `QuotaAlone.UndisturbedCallIsReserve` | quota/reservation.go:93-220 | a call that finds its locks free can run through its statements, and then tables and answer are those of the whole operation |
| `QuotaAlone.OutcomeMeaning` | quota/reservation.go:116-127 | a storage failure becomes a degraded admission exactly if the caller asked for that; every other answer is passed on |
| `QuotaConcurrency.RowsKeepTheirIdentity` | quota/reservation.go:198-211 | a committed reservation keeps its key, counter and amount in every later state |
| `QuotaConcurrency.ChargedExactlyOnCommit` | quota/reservation.go:191-220 | only a commit charges: one counter, by the call's amount, together with the row it returns |
| `QuotaConcurrency.BoundHoldsThroughout` | quota/reservation.go:171-195 | the capacity bound holds under every interleaving of disciplined steps |
| `QuotaConcurrency.CommitIsAtomicReserveIff` | quota/reservation.go:137-220 | on every plan, soft ones and overdrawn counters included, a commit does what the whole operation would do atomically in that state exactly when that operation would find the capacity there |
| `QuotaConcurrency.CommitIsAtomicReserve` | quota/reservation.go:137-220 | and it would, while the counter's bound is kept and its capacity stays below 2^63 |
| `BillingRepo.FindByIntent` | billing/adapters/pgrepo/repo.go:233-246 | the answer is the most recent order that carries the payment intent, and there is none exactly when no order does |
| `BillingRepo.AmountMismatchIff` | billing/app/service.go:311-322 | an order refuses an event exactly if it is no trial, the event carries an amount, and the amounts are unequal or two given currencies differ beyond letter case |
| `BillingPaid.HandlerIsSummary` | billing/app/service.go:210-309 | the handler run call by call comes to a one-piece description of its outcome, up to the clock-derived expiry |
| `BillingPaid.HandlePaidRestarts` | billing/app/service.go:210-309 | stopped after any number of calls, also right after a revival, and rerun, it ends in the orders, plans, references, cancel marks and event rows of one uninterrupted run |
| `BillingPaid.RedeliveryResumesIffErrored` | billing/app/service.go:166-208 | a redelivery completes an interrupted delivery if its event row is in error and changes nothing if it is not |
| `BillingPaid.CrashAfterPayIsNotResumed` | billing/app/service.go:166-208 | a concrete crash that leaves a paid order without its plan for good |
| `BillingOrders.OrdersFollowTheMachine` | billing/app/ports.go:189-204 | every step of every path moves an order along pending to paid, failed or canceled, canceled by expiry to paid, or paid to refunded, and keeps its terms of sale |
| `BillingOrders.ClosedOrdersStayClosed` | billing/app/ports.go:189-204 | failed, refunded and canceled by a person are final in every schedule |
| `BillingActions.EveryEdge` | billing/adapters/pgrepo/repo.go:90-144 | the edges spelled out: nothing becomes pending again; only a pending order fails, is canceled or is paid, only one the sweeper canceled is revived, only a paid one is refunded; what was sold to whom stays |
| `BillingActions.OutsideActs` | billing/adapters/pgrepo/repo.go:90-144 | the calls of the other paths change exactly the orders they name, as they say |
| `BillingActions.StatusChangesAreLogged` | billing/app/service.go:239-276 | the history of the interleaving misses no single-row change of a status |
| `BillingOrders.ActKeepsInv` | billing/app/service.go:210-309 | each action keeps: paid and refunded orders were paid, handlers stand on orders whose amount was compared, plan changes were earned |
| `BillingOrders.GrantedPlansWerePaidFor` | billing/app/service.go:220-309 | in every schedule a plan change made for an order follows that order's payment, is the order's plan for the order's workspace, and its event was for a trial, carried no amount, or carried the order's own amount in its currency |
| `BillingOrders.PlanChangesAreLogged` | billing/adapters/pgrepo/repo.go:323-349 | the history that theorem speaks of misses no plan change made for an order |
| `BillingOrders.RefundOvertakenIff` | billing/app/service.go:220-309 | from any state on, some continuation grants the plan of a refunded (or otherwise closed) order if and only if a handler stands there between the payment and the grant of that order |
| `BillingOrders.RefundMayBeOvertaken` | billing/app/service.go:359-398 | such a state is reached: a schedule from an empty system ends with a refunded order whose workspace is on the plan it granted, after the refund's own downgrade |
| `BillingRenewal.RenewalIsSpec` | billing/app/service.go:421-512 | a renewal run call by call is its one-piece description, plan-change log included |
| `BillingRenewal.RenewalTouchesOneWorkspace` | billing/app/service.go:421-553 | a renewal for the right amount extends the workspace its lookup answered and no other; the plan changes exactly from free to the named order's; a renewal for the wrong amount changes no workspace; no order changes its status |
| `BillingAmounts.RenewalOutcome` | billing/app/service.go:421-553 | the named order is given the event's intent; for the wrong price no workspace changes; otherwise the one found gets the subscription and the new expiry, and the named order's plan exactly if it was on the free one |
| `BillingRenewal.RenewalRestartsIff` | billing/app/service.go:421-512 | stopped after any number of calls and rerun, whatever the two lookups answer, it ends as one uninterrupted run, if and only if the amount is wrong, or at most one workspace carries the reference, or none of them would get a plan back |
| `BillingRenewal.CancellationEnds` | billing/app/service.go:555-585 | the workspace the lookup answered ends free, without subscription, expiry or cancel mark; no other workspace changes |
| `BillingEndings.CancellationCallByCall` | billing/app/service.go:555-585 | the store after k calls is what the handler's calls, taken one by one, leave |
| `BillingRenewal.CancellationRestartsIff` | billing/app/service.go:555-585 | a rerun after k calls comes to the same, whatever the two lookups answer, if and only if at most one workspace carries the reference and it was not stopped between dropping the subscription and clearing a set cancel mark |
| `BillingService.Service.HandleWebhook` | billing/app/service.go:166-201 | a delivery is handled once per event, again only if the stored event is in error, by the handler of its kind |
| `BillingService.Service.ResolveOrder` | billing/app/service.go:400-419 | the order an event means: by id, then channel reference, then payment intent |
| `BillingService.Service.PayOrRevive` | billing/app/service.go:236-275 | the compare-and-set ladder from pending through a reread to revival agrees with the call-by-call handler |
| `BillingService.Service.HandlePaidEvent` | billing/app/service.go:210-309 | the method over the live store is the call-by-call handler; which amounts it accepts is in `BillingAmounts.PaidIffAmountAgrees` |
| `BillingCalls.FailedEventIsOneAction` | billing/app/service.go:324-349 | whatever happens between resolving the order and writing it, the event is processed and the order fails, as one action of the interleaving, exactly if it is still pending; plans and workspaces are untouched |
| `BillingAmounts.WrongAmountChangesNothing` | billing/app/service.go:220-231 | an event for another amount or currency is marked processed and changes neither orders nor workspaces |
| `BillingAmounts.AcceptedPaymentPays` | billing/app/service.go:233-309 | an accepted event pays a pending order, and its workspace has the order's plan, the event's subscription and no cancel mark; nothing else changes |
| `BillingAmounts.PaidIffAmountAgrees` | billing/app/service.go:210-322 | a pending order ends paid if and only if it is a trial, the event carries no amount, or amount and currency agree |
| `BillingAmounts.LatePayment` | billing/app/service.go:239-276 | an accepted event leaves an order paid exactly if it was pending, paid, or canceled by the sweeper; every other order keeps its status |
| `BillingAmounts.HandlerIsSummaryExactly` | billing/app/service.go:210-309 | an uninterrupted run leaves exactly the described tables, the new expiry included, and logs one plan change exactly if it credited a workspace |
| `BillingAmounts.ResolutionMeaning` | billing/app/service.go:400-419 | a named order or none; else one with the channel reference; else the most recent with the payment intent, in whose place the channel reference may stand |
| `BillingService.Service.HandleRefundEvent` | billing/app/service.go:359-398 | the refund of the live store as specified, workspace errors included |
| `BillingService.Service.HandleRenewedEvent` | billing/app/service.go:421-512 | the renewal of the live store is the call-by-call handler |
| `BillingService.Service.HandleCanceledEvent` | billing/app/service.go:555-585 | the cancellation of the live store, unknown subscriptions ignored |
| `BillingService.RefundDowngradesPaidOrders` | billing/app/service.go:359-398 | a refund takes plan, subscription and cancel mark away exactly from a paid order's workspace and touches no other |
| `BillingService.RefundRerunSkipsDowngrade` | billing/app/service.go:371-376 | stopped anywhere after the status write and rerun, a refund only marks the event |
| `BillingService.RefundRunsToItsEnd` | billing/app/service.go:359-398 | the refund taken call by call comes to its one-piece description |
| `BillingEndings.RefundCallByCall` | billing/app/service.go:359-398 | the store after k calls is what the handler's calls, taken one by one, leave |
| `BillingService.RefundRestartsIff` | billing/app/service.go:359-398 | for every store, event and number of calls: stopping there and rerunning comes to the tables of one uninterrupted run if and only if the status was not written yet, or the missed calls had nothing to take from the workspace |
| `BillingService.RenewalRevivesRefundIff` | billing/app/service.go:421-512 | after a refund the next renewal that names the order, for the right amount, finds the workspace if and only if the refund event named no subscription, and then gives the order's plan back |
| `BillingService.RenewalRevivesRefund` | billing/app/service.go:421-512 | a concrete pay, refund and renewal that ends with a refunded order and its plan |
| `BillingCalls.UserCancelIsOneAction` | billing/app/service.go:884-913 | whatever happens between the read and the compare-and-set, the call is the atomic cancellation or changes nothing; it succeeds exactly for an order of the caller's workspace still pending at the write, and loses the race exactly when it stopped being pending in between |
| `BillingCalls.AdminCancelIsOneAction` | billing/app/service_adminops.go:114-134 | the same for the admin's cancellation, of any workspace's order |
| `BillingCalls.MarkPaidIsOneAction` | billing/app/service_markpaid.go:11-39 | the same for marking paid: exactly an order of the manual channel that is pending at the write |
| `BillingCalls.OnlyOneSucceeds` | billing/app/service.go:884-913 | after one of these calls succeeded on an order, every later one is refused, whenever it read and whatever happens between |
| `BillingCalls.CallsKeepInv` | billing/app/service_markpaid.go:11-39 | each of them keeps the invariant of the interleaving, so the results about schedules hold with them |
| `Metering.MeteredDims` | billing/app/service.go:667-705 | strictly sorted, and exactly the dimensions with a positive unit price, included units defaulting to 0 |
| `Metering.DimMeaning` | billing/app/service.go:667-705 | a dimension is there if and only if the limits give it a positive metered_<name>_unit_cents; its included units are metered_<name>_included or 0 |
| `Metering.MeteredDimsUnique` | billing/app/service.go:667-705 | that describes one result, so map iteration order does not matter |
| `Metering.ComposeOrder` | billing/app/service.go:734-773 | the order's amount and metadata, and that there is none unless the int64 total is positive |
| `Metering.Overages.CreateOverageOrder` | billing/adapters/pgrepo/repo.go:599-622 | one run of the billing on the stored orders: an order is inserted exactly if one was composed and its workspace and period have none |
| `Metering.PeriodBilledOnce` | billing/adapters/pgrepo/repo.go:599-622 | over any number of runs a workspace and period is billed at most once, by the first run with something to bill, and never again if it was billed before |
| `Metering.UsagePreview` | billing/app/service.go:839-865 | the preview's total and projections for those dimensions |
| `Metering.ItemMeaning` | billing/app/service.go:734-773 | an item's units and cents are the exact ones modulo 2^64, and it is billed exactly for a positive excess at a positive price |
| `Metering.OrderMeaning` | billing/app/service.go:734-773 | there is an order exactly if the total is positive; the total is the sum of the cents its metadata lists, as int64 computes it |
| `Metering.BillIsExact` | billing/app/service.go:734-773 | within int64 the amount is the true sum, equals the sum of the metadata items, and is 0 exactly when there are none |
| `Metering.PreviewThenBill` | billing/app/service.go:775-865 | for one plan and usage the preview's total is the billed amount if the period is not billed yet, and no order is made exactly when it is billed or the total is not positive |
| `Paths.Match` | platform/renderx/loader.go:177-201 | the matching loop finds the captures the segment-wise definition gives |
| `Paths.ExpandPath` | platform/renderx/invalidate.go:15-30 | the expansion loop fills every parameter or fails |
| `Paths.JoinSplit` | platform/renderx/invalidate.go:15-30 | splitting at slashes and joining give the path back |
| `Paths.SplitJoin` | platform/renderx/loader.go:177-201 | and joining slash-free segments and splitting give the segments back |
| `Paths.MatchThenExpand` | platform/renderx/invalidate.go:15-30 | expanding what a valid pattern matched gives the path back if and only if all captured values are whitelisted and equal names captured equal text |
| `Paths.MatchThenExpandDistinct` | platform/renderx/loader.go:177-201 | with distinct parameter names, if and only if the values are whitelisted |
| `Paths.ExpandThenMatch` | platform/renderx/loader.go:203-262 | matching an expansion gives back exactly the parameters the pattern names |
| `PathGrammar.ValueMeaning` | platform/renderx/loader.go:203-216 | a value is whitelisted if and only if it has 1 to 256 ASCII letters, digits, underscores and hyphens |
| `PathGrammar.PatternMeaning` | platform/renderx/loader.go:242-262 | a pattern is valid if and only if it is the root, or slashes each followed by a colon and a word or by text without a colon |
| `PathGrammar.HasParamsIffColon` | platform/renderx/loader.go:227-234 | a valid pattern has parameters if and only if there is a colon in it |
| `PathGrammar.KeyMeaning` | platform/renderx/cache.go:93-106 | the root, and slashes each followed by a whitelisted value, have a key and no other path has one |
| `Paths.KeyToPathInverts` | platform/renderx/invalidate.go:32-37 | turning a key into a path is the left inverse of taking a path's key |
| `Paths.CacheKeyInjective` | platform/renderx/cache.go:93-106 | different paths have different keys |
| `Paths.EntryNeverADirectory` | platform/renderx/cache.go:73-85 | no key's entry file is a directory on the way to another's |
| `Paths.BareKeysCollide` | platform/renderx/cache.go:73-85 | without the suffix two keys would collide that way |
| `Paths.PageFilesCollideOnlyAtTheRoot` | platform/renderx/prerender.go:171-180 | two paths are built into one file exactly if they are equal or are / and /index |
| `PathGrammar.FileMeaning` | platform/renderx/prerender.go:171-180 | the entry and page files of a path, by name |
| `PageCache.MemCache.Get` | platform/renderx/cache.go:384-393 | a hit moves the key to the front and changes no entry |
| `PageCache.MemCache.Put` | platform/renderx/cache.go:395-412 | the key comes first, the least recent key beyond the bound goes, list and index keep naming the same keys |
| `PageCache.MemCache.Delete` | platform/renderx/cache.go:414-421 | the key leaves list and index |
| `PageCache.LayeredCache.Get` | platform/renderx/cache.go:108-136 | the answer is a plain map's under build, key and TTL; what is served comes first in memory afterwards, a garbled file is gone, and neither changes what is visible; the times are in `PageServing.PutIsServedUntilTtl` |
| `PageCache.LayeredCache.Put` | platform/renderx/cache.go:138-162 | a plain map's put, with its two refusals; memory only, its restriction to the recency list the write leaves |
| `PageCache.LayeredCache.Delete` | platform/renderx/cache.go:215-231 | the valid paths are gone from both layers, files of other builds included, the invalid ones are reported |
| `PageServing.PutIsServedUntilTtl` | platform/renderx/cache.go:108-162 | an entry put at time t is answered up to and including its build time (t if it names none) plus the time to live, and not later; a stale lookup answers it always; other paths are served as before |
| `PageServing.PutIsRefused` | platform/renderx/cache.go:138-162 | an entry of another build, or a path without a key, is refused and changes nothing |
| `PageServing.PutThenGet` | platform/renderx/cache.go:108-162 | the same through both layers, or through memory alone |
| `PageServing.LoadThenLoad` | platform/renderx/cache.go:182-213 | a load's answer is stored: the loader is asked again exactly if it is too old |
| `PageServing.GetFromDisk` | platform/renderx/cache.go:118-135 | a cache opened over a disk serves a readable entry of its own build that is not too old, and no other |
| `PageServing.AnswersMeaning` | platform/renderx/cache.go:108-289 | in any run every get, stale get and load is told what the last entry written for its path tells, by its age |
| `PageCache.LayeredCache.GetStale` | platform/renderx/cache.go:233-257 | the map's entry whatever its age |
| `PageCache.LayeredCache.Keys` | platform/renderx/cache.go:259-329 | the keys of both layers, sorted, each once |
| `PageCache.LayeredCache.EvictMatching` | platform/renderx/cache.go:272-289 | exactly the matching keys go, and their number is returned |
| `PageCache.LayeredCache.GetOrLoad` | platform/renderx/cache.go:182-213 | hit exactly if a live entry is there; otherwise what the loader answered, which is stored, with and without a disk |
| `PageCache.Replay` | platform/renderx/cache.go:108-289 | with a disk every run of gets, stale gets, puts, deletes, evictions and loads is answered as by a plain map, so the memory bound and what it drops make no difference |
| `PageCache.ServedIsLastWrite` | platform/renderx/cache.go:108-289 | what is served depends only on the last put, delete, matching eviction or load that found nothing live, on the build and on the TTL |
| `Invalidation.Registry.RegisterDep` | platform/renderx/loader.go:68-82 | one edge is added, once |
| `Invalidation.Registry.AffectedPatterns` | platform/renderx/loader.go:104-123 | the queue walk ends on cyclic graphs and returns exactly the reachable patterns, each once, the start first |
| `Invalidation.Tombstones.Add` | platform/renderx/invalidate.go:80-96 | exactly the path, or the paths the pattern matches, become dead in addition |
| `Invalidation.Tombstones.Has` | platform/renderx/invalidate.go:98-113 | a path is dead if added itself or matched by an added pattern |
| `Invalidation.Service.EmbedPage` | platform/renderx/handler.go:351-377 | the snapshot's file for a path is served exactly if the path is not dead |
| `Invalidation.Service.InvalidatePattern` | platform/renderx/invalidate.go:142-161 | exactly the affected paths become dead and leave the cache, all others stay as they were; it fails exactly when the one path has no key |
| `Invalidation.Service.Invalidate` | platform/renderx/invalidate.go:130-140 | the same for all reachable patterns together, and exactly when it succeeds |
| `PathGrammar.AffectedMeaning` | platform/renderx/invalidate.go:142-161 | a pattern without parameters affects its own path, one with valid values for all of them the path they fill in, any other every path it matches |
| `Invalidation.ServeAfterInvalidate` | platform/renderx/invalidate.go:130-161 | after success neither the snapshot nor the cache, fresh or stale, serves a path affected through any reachable pattern, nor any other path its embedded file, except that / and /index share theirs and each stays served until it is dead itself |
| `Invalidation.GoneUntilPut` | platform/renderx/cache.go:215-257 | and no run that neither puts nor loads that path brings it back into the cache |
| `ShellMeta.IndexFold` | platform/renderx/handler.go:583-596 | the first case-insensitive occurrence, or -1 exactly when there is none |
| `ShellMeta.ShellMetaWriter.Write` | platform/renderx/handler.go:488-535 | one chunk: start, buffering, insertion, giving up and pass-through as specified |
| `ShellMeta.ShellMetaWriter.Finish` | platform/renderx/handler.go:540-563 | the fallback ladder on what is still buffered; where that is in the bytes is in `ShellLadder.FallbackGoesBehind` |
| `ShellLadder.FoundMeaning` | platform/renderx/handler.go:583-596 | a tag is found where it lies letter by letter, in either case of each letter and nowhere else |
| `ShellLadder.FallbackGoesBehind` | platform/renderx/handler.go:544-558 | the text goes right behind the first '>' from the first occurrence of <head on; without such a one, of <html; else of <!doctype |
| `ShellLadder.NoFallback` | platform/renderx/handler.go:560-562 | a body in which none of them is closed comes out as it is |
| `ShellLadder.ResponseWithTag` | platform/renderx/handler.go:488-535 | however a body is cut, the text goes right before a closing tag that ends within the first 262145 bytes |
| `ShellLadder.ResponseWithoutTag` | platform/renderx/handler.go:537-563 | and a body of at most 262144 bytes without the tag gets the fallback |
| `ShellLadder.LongResponseWithoutTag` | platform/renderx/handler.go:503-510 | a longer one comes out as it is |
| `ShellLadder.HeadersDecideOnce` | platform/renderx/handler.go:488-495 | the headers are looked at with the first chunk and not again |
| `ShellLadder.FinishIsFinal` | platform/renderx/handler.go:540-563 | finishing leaves nothing buffered and may be repeated, and later bytes go straight through |
| `ShellMeta.ResponseIsChunkIndependent` | platform/renderx/handler.go:475-563 | for every way of cutting a body: insertion right before a closing tag in reach, fallback or nothing without a tag, at most that one insertion otherwise |
| `ShellMeta.OutOfReachDependsOnChunks` | platform/renderx/handler.go:453-457 | for every body whose tag is out of reach two cuttings give different outputs |
| `ShellMeta.OthersPassThrough` | platform/renderx/handler.go:575-580 | anything but uncompressed HTML comes out byte for byte |
| `ShellMeta.Serve` | platform/renderx/handler.go:475-563 | the writer driven by any chunks produces that response |
| `LogRing.Ring.constructor` | platform/logring/logring.go:113-123 | the defaults, and an empty history |
| `LogRing.Ring.Capture` | platform/logring/logring.go:202-275 | one capture extends the history by one entry and keeps tail, buckets, recency list and counters what the history determines |
| `LogRing.Ring.Tail` | platform/logring/logring.go:294-302 | of the last capacity entries those at or above the level, oldest first; one of them is missing only if as many newer ones as the limit allows (100 if none is set) are returned |
| `LogRing.Ring.ByRequestId` | platform/logring/logring.go:278-289 | the same of the last perRequest entries of a retained id since it was last admitted, nothing for other ids |
| `LogRing.Ring.GetStats` | platform/logring/logring.go:305-315 | captured, dropped and retained counts as functions of the history alone |
| `LogCounters.RequestsAddUp` | platform/logring/logring.go:245-263 | conservation: every request that was brought in is retained or was dropped |
| `LogCounters.EntriesAddUp` | platform/logring/logring.go:245-275 | conservation: every captured entry that names a request is in its window, was overwritten there, or went with its request |
| `LogCounters.Report` | platform/logring/logring.go:305-315 | the counters reported account for everything captured |
| `LogRing.ReadRing` | platform/logring/logring.go:334-343 | reading modulo the length unrolls the ring from its oldest element |
| `LogRing.FilterEntries` | platform/logring/logring.go:317-332 | every entry returned is at or above the level, in the order and as often as it was there, and a qualifying one is missing only for newer ones that fill the limit |
| `LogRing.AtLevelMeaning` | platform/logring/logring.go:323-327 | an entry passes the filter if and only if its level is at least the minimum, and keeps its multiplicity |
| `LogRing.AtLevelInOrder` | platform/logring/logring.go:323-327 | the filter keeps the order |
| `LogRing.OverwriteHolds` | platform/logring/logring.go:202-275 | overwriting at the head and advancing it keeps the ring the last capacity entries |
| `LogRing.RecencyMeaning` | platform/logring/logring.go:225-262 | the retained order is each captured id once, by latest capture |
| `LogRing.RetainedStep` | platform/logring/logring.go:225-262 | a capture moves a retained id to the end, or adds a new one and lets the oldest go at the bound |
| `Money.AtoiClamped` | billing/money/money.go:196-206 | the decimal value, failing exactly when it exceeds MaxInt |
| `Money.ParseUnits` | billing/money/money.go:175-192 | the exact units, or failure exactly beyond the bound |
| `Money.ParseAmount` | billing/money/money.go:114-160 | the exact worth of a well-formed amount in range, 0 for everything else, never a wrapped value |
| `Money.ParseAmountForCurrency` | billing/money/money.go:73-85 | the zero-decimal echo and the general case |
| `Money.ReadInvertsText` | billing/money/money.go:114-160 | every string is the text of what is read from it |
| `Money.TextReadsBack` | billing/money/money.go:114-160 | every well-formed amount is read back from its text |
| `Money.RoundTripTwoDecimal` | billing/money/money.go:73-102 | parsing what was formatted gives c back if and only if its absolute value is at most 9223372036854775799 |
| `Money.RoundTripZeroDecimal` | billing/money/money.go:73-102 | for zero-decimal currencies if and only if c is not MinInt |
| `Money.MinIntDoesNotParse` | billing/money/money.go:92-102 | MinInt comes out as text that parses to 0 |
| `Money.ZeroDecimalEcho` | billing/money/money.go:73-85 | a whole amount with an all-zero fraction parses to the whole amount, any other fraction to 0 |
| `MoneyText.SpaceMeaning` | billing/money/money.go:115 | the code points trimmed around an amount |
| `MoneyText.BlanksDoNotMatter` | billing/money/money.go:114-118 | white space before and after an amount does not matter |
| `MoneyText.FractionMeaning` | billing/money/money.go:131-160 | behind the dot stand tens and ones of minor units, neither of which need be given: ".5" is 50, "19." 1900 |
| `MoneyText.LongFraction` | billing/money/money.go:138-140 | more than two digits there are no amount |
| `MoneyText.ZeroDecimalMeaning` | billing/money/money.go:23-29 | the yen, in any letter case, is the one currency without minor units |
| `MoneyText.YenEcho` | billing/money/money.go:73-85 | a whole amount of yen with a fraction is read exactly if the fraction is zeros only |
| `Relay.StepUsesPotential` | platform/relayx/relay.go:54-107 | every receive, forward or loss lowers the steps still possible, and without losses keeps the publishes and deliveries to come |
| `Relay.BroadcastIsBounded` | platform/relayx/relay.go:29-107 | with m other instances one PublishOut causes at most m^0+...+m^4 publishes and m^1+...+m^4 deliveries, in at most (m + 1) s(4) steps with s(0) = 1 and s(k + 1) = 2 + (m + 1) s(k), whatever is forwarded, lost or reordered |
| `Relay.BoundsAreReached` | platform/relayx/relay.go:54-107 | some run meets both bounds |
| `Evaluator.AllowedIffEveryStageClear` | authorization/evaluator.go:17-168 | allowed if and only if each stage's own requirement holds and no product rule objects; otherwise the decision names the first stage where that fails |
| `DecisionTable.DecisionIsTheTable` | authorization/evaluator.go:17-195 | without product rules the decision's outcome, stage and reason are those of the first row that applies in one table over the fields of the request, and allowance if none does |
| `Evaluator.MoreRulesNeverAllow` | authorization/evaluator.go:155-168 | adding product rules, anywhere and in any order, never turns a refusal or challenge into an allowance |
| `Authorization.AllowMeansEntitled` | authorization/evaluator.go:52-195 | for a validated operation, allowance implies the declared credential kind, liveness, scope binding, memberships, a shared allowed role, AAL2, every recent-auth window in exact time, and idempotency |
| `Authorization.AllowIffEntitled` | authorization/evaluator.go:17-195 | with recent_auth spelled out and a window that fits int64, and if no product rule objects, also the converse |
| `Authorization.WindowNeverWidens` | authorization/catalog.go:121-123 | an overflowing window never admits an older authentication than declared |
| `Authorization.NonSessionChallengedIffOmitted` | authorization/rules.go:24-49 | token, machine and anonymous operations meet a built-in objection if and only if recent_auth was left out |
| `Authorization.OmittedRecentAuthShutsOut` | authorization/rules.go:31-44 | such an operation allows nobody who must sign in |
| `Authorization.OmissionPassesAndShutsOut` | authorization/catalog.go:186-195 | a concrete catalog passes validation with recent_auth left out, allows no call, and allows the token's holder once it is spelled out |
| `Authorization.ChallengeAsksForDeclared` | authorization/rules.go:51-65 | a built-in challenge is for a session operation and asks for its own assurance and window |
| `Authorization.ChallengeCanBeMet` | authorization/rules.go:24-65 | some facts satisfy it if and only if the window has not wrapped to a negative one |
| `Authorization.ValidateRuleClosure` | authorization/catalog.go:285-297 | no error exactly when every referenced rule is registered and not built in; the error is about the first name that is not, and says why |
| `Authorization.Validate` | authorization/catalog.go:157-166 | the verdict depends on the catalog only, not on which normal form the unstable sort produced |
| `Authorization.PassingOperations` | authorization/facts.go:40-51 | what validation of the normal form establishes holds of the operations as written |
| `Authorization.ValidationIgnoresOmissions` | authorization/catalog.go:186-195 | validation gives the same verdict with defaults left out and spelled out |
| `Authorization.AuthorizeIsSound` | authorization/facts.go:57-81 | an allowance against a validated catalog is for one of its operations, whose declared requirements the caller meets |
| `Authorization.AuthorizeAlwaysAnswers` | authorization/facts.go:57-81 | however the registry has grown since validation, loaded and registered facts always lead to a decision |
| `Authorization.UnknownOperationIsRefused` | authorization/facts.go:57-61 | an operation the catalog does not have is refused whatever else holds |
| `Authorization.KnownOperationIsEvaluated` | authorization/facts.go:62-81 | for a known one, in this order: facts not loaded, a fact not registered, a rule that cannot be referred to, or the decision under the operation's own rules |
| `Authorization.ResolveMeaning` | authorization/registry.go:108-126 | the registered rules in the order of their names, or the first name refused and why |
| `Catalog.NormalizeNames` | authorization/catalog.go:208-215 | the names in ascending order |
| `Catalog.SortedNamesForgetOrder` | authorization/catalog.go:208-215 | two name lists normalize alike if and only if they differ in order only |
| `Catalog.Normalize` | authorization/catalog.go:181-206 | defaults filled in, names sorted, operations a permutation sorted by id |
| `Catalog.ValidateStructure` | authorization/catalog.go:217-283 | no fault exactly when version, vocabularies, ids and operations are in order; a reported fault is a real one, and for operations the first, its name judged before its being a duplicate and that before the rest |
| `CatalogRules.StructureMeaning` | authorization/catalog.go:217-283 | a catalog is in order if and only if it is of version 1, its role names are closed and listed once, its operations are in order and no two share an id |
| `CatalogRules.OperationMeaning` | authorization/catalog.go:240-283 | an operation is in order if and only if all its words are known, declared and closed, and its credential, scope, roles, assurance and recency go together by a table |
| `CatalogRules.OperationFaultIsTrue` | authorization/catalog.go:240-283 | a fault reported of an operation is really there |
| `CatalogRules.SemanticsMeaning` | authorization/catalog.go:299-368 | which credential, roles, assurance, recency and window may go with a scope |
| `CatalogRules.NameMeaning` | authorization/catalog.go:370-378 | a closed name is not empty and has no blank, tab, line end or star |
| `Catalog.Hash` | authorization/catalog.go:168-179 | fails exactly when the normal form is invalid, else digests a normal form |
| `CatalogOrder.HashIgnoresOrder` | authorization/catalog.go:168-206 | catalogs that differ by the order of operations, vocabularies, roles or rules, or by defaults left out, both fail or hash alike |
| `CatalogOrder.EqualHashesMeanReordered` | authorization/catalog.go:168-206 | and with an injective digest equal hashes mean they differ in nothing else |
| `CatalogOrder.NormalizationIsIdempotent` | authorization/catalog.go:181-206 | normalizing a valid normal form changes nothing |
| `CatalogOrder.UniqueIffIdsIdentify` | authorization/catalog.go:201-204 | the unstable sort leaves no choice if and only if operations of the same id are the same, which validation guarantees |

## Left out

- Renewal and cancellation handlers inside the interleaving: there their repository calls are environment steps that may happen anywhere; the user's own subscription cancellation is only such a step. Calendar arithmetic of intervals is a parameter.
- Failing repository calls inside `BillingRenewal` other than a missing workspace row: stopping after any prefix covers what they leave behind.
- Hooks, audit records, logging, events and notifications: they do not touch the modelled state.
- SQL text, HTTP, YAML, JSON and SHA-256: statements are table updates, the digest is a function parameter.
- `Evaluator.MoreRulesNeverAllow`: product rules see the operation, principal, scope, facts and time, but not the list of rules they were resolved into; a rule that looks at the other rules is not covered.
- `Relay.BroadcastIsBounded`: instances are told apart by index; two instances configured with the same id are not covered.
- Concurrent races inside the page cache, `singleflight` and background refresh: each cache operation is atomic.
- Memory-cache list elements and log buckets as pointers: list elements are named by their keys and buckets are values in the map, so aliasing between them is not captured.
- Purging of foreign builds' files, the poison list, static matching and route scoring: single-body facts.
- Log attribute flattening and redaction; `FormatCentsChecked`.
- Status, availability checks, periodic grants and month formatting of the quota package; the period is a parameter.
- The usage source's errors and the metering metadata of the month-end run.
- Registration panics: their excluded inputs are preconditions of `RegisterDep`.
- Times beyond the range of Go's time arithmetic.
