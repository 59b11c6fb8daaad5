# Verification model of the seckill backend

A Dafny model of the flash-sale ("seckill") backend and proofs about it. The centre is the inventory protocol: a
purchase takes stock in Redis by one atomic script, becomes an order message or a directly written order, is
persisted in MySQL by at-least-once consumers, and is later paid, cancelled, timed out or refunded, while a reconciler
overwrites Redis from MySQL. Around it stand the smaller engines: request coalescing, identifiers, the distributed
lock, the WebSocket hub, the behaviour detector, the statistics engine and the product variants.

`dafny verify dfyconfig.toml` checks everything. No program of the repository is part of the project.

## How it is organised

| file | about |
|---|---|
| `RedisScripts`, `ScriptRuns` | the keyspace and the atomic scripts; runs of the combined purchase script |
| `OrderStore`, `OrderHandlers` | MySQL stock and sharded order tables; the order handlers over both stores |
| `SeckillProtocol` | the whole protocol as a step machine over stores, queues and purchases in flight, and its laws |
| `ProtocolShape`, `ProtocolLaws`, `ProtocolRuns` | structure, conservation step by step, conservation over runs, exact conditions for the steps that break it |
| `StepMeanings` | what every handler answers and writes, stated on tables, stocks, counters and queues |
| `OrderLifecycle`, `ProtocolFindings`, `OrderDelivery` | status history and returned quantities, concrete runs that break a law, exactly-once effect of deliveries |
| `SeckillService`, `Reconciler` | purchase path, consumers and reconciler as methods, proved to be steps of the protocol |
| `SingleFlight`, `TimedFlight`, `ShardedFlight` | request coalescing, the same under a clock, and its sharded form as a refinement of it |
| `Snowflake`, `BufferedIds` | identifiers, their packing, the buffered front end, order numbers |
| `DistLock`, `WebSocketHub` | lock with renewal; client map and channel discipline |
| `AnomalyDetector`, `StatsEngine`, `SkuAttrs`, `SkuCombos` | sample window and statistics; request counts, visitors and alarms; variants and attributes |
| `Prelude`, `MapSums`, `Bits` | shared vocabulary, sums over finite maps, bit arithmetic on naturals |

Objects that the program updates in place are classes; each method's contract gives the whole new state as a function
of the old one (`View() == ...Effect(old(View()), ...)`), and the laws are proved about those functions over all runs.
Lemmas for which Dafny would make up an induction hypothesis of its own carry `{:induction false}`, so that each proof
is the one that is written.

## Reading the protocol model

- One handler call is one step. The handlers read an order's status and later write it unconditionally, so the laws
  need this: two handlers of one order must not interleave.
- Every store call of a handler may fail, chosen by the environment (`Calls`, `Env`, `insertOk`). A publication that
  reports an error did not deliver. Redelivery, requeueing and dropping are free choices. A failing insert writes
  nothing; the stock guard refusing after the insert is modelled, and the inserted row then stays.
- A script may run and lose its reply: the purchase then ends in its error exit and gives nothing back (`Env.replyLost`).
- A reconciliation lists MySQL's stocks once and overwrites Redis product by product later, with any steps in between
  (`ReadStocks`, `Overwrite`); several instances may do so at once, because the lock is one per instance.
- In `Do`, value, done flag and signal are written outside the table's lock and are assumed to become visible together.
- `flight` is ghost bookkeeping of purchases that Redis has counted and MySQL does not hold yet.
- The limit of a product is constant and runs stay inside the activity window, so purchase counters do not expire.
- Times are integers; a Redis lifetime of zero seconds or less raises a script error, after the writes before it.
- Quantities and total stocks are positive, as the request validation demands (model/model.go:123, model/model.go:183).
- One operation on several atomic variables (`RecordRequest`, `RecordVisit`) is one step, and the clock readings
  inside one locked section are one instant.

## What was found

The laws that fail come with their exact condition and a concrete run or input from the initial state.

- In the last second of an activity the counter's lifetime truncates to 0 seconds; the purchase script then fails
  after taking the stock, and nobody gives it back (`ReserveExactly`, `PurchaseExactly`, run `LastSecondLeaks`).
- The repository's README (README.md:39 and README.md:372) presents reconciliation as the last line against overselling.
  Overwriting Redis is safe exactly when the stock listed at the start of the pass is not above MySQL's stock less
  what is in flight by then (`OverwriteSafeExactly`). A purchase in flight breaks this
  (`FreshOverwriteSafeExactly`, run `ReconcilingInFlightOversells`), and so does a purchase completed since the listing, with
  nothing in flight any more (run `StaleListOversells`).
- An order is looked up by number in the caller's shard without comparing the owner. Cancelling or refunding another
  user's order takes the quantity from the caller's counter (`ForeignReturnExactly`, run `ForeignCancelBlocksOwner`).
- A restock that fails after the status was written is never repeated (`RestockNeededExactly`, run `FailedRestockLosesStock`).
- The coalescing table stays in order in every run exactly when a function and its merge window together take at most
  ten seconds (`TenSecondsExactly`). A sweep that meets a call still executing removes it: the next caller starts a
  second execution, and the first leader signals its wait group a second time, which panics (`SweepSafeExactly`,
  run `ThirtySecondsSplit`).
- A lock lifetime under one second truncates to 0 in the renewal, which deletes the lock (`PeriodBelowTtl`,
  `ShortLockDeletesItself`, run `ShortLockRun`).
- The form's cut at fifty combinations stops before later attribute rows are looked at, so whole attributes can be
  lost (`LastRowKeptExactly`, rows `WeightIsLost`).

Where the code and what is written about it differ, the model follows the code:

- The comment at service/order_service.go:198 says payment clears the purchase count; the code keeps it.
- README.md:63 announces a 50 ms merge window; the window is a parameter of `Do`, and a window of zero deletes the entry at once.

Orders written directly while the queue is down get no timeout message (`Backend.CreateDirectly`).

## Model

| member | source | states |
|---|---|---|
| RedisScripts.RedisStore.PreloadStock | redis/redis.go:61-64 | the product's stock key holds the given amount, every other key is untouched |
| RedisScripts.RedisStore.GetStock | redis/redis.go:66-73 | the stock, zero for a missing key, with no change |
| RedisScripts.RedisStore.DecrStock | redis/redis.go:75-93 | takes the quantity exactly if the key exists and holds at least as much, otherwise changes nothing |
| RedisScripts.RedisStore.IncrStock | redis/redis.go:95-98 | adds the quantity, starting a missing key at zero |
| RedisScripts.RedisStore.IncrUserPurchaseCount | redis/redis.go:130-147 | adds to the buyer's counter if the lifetime is at least a second, otherwise fails without a write |
| RedisScripts.RedisStore.DecrUserPurchaseCount | redis/redis.go:169-193 | takes from the counter, deletes it when nothing is left, leaves a missing key missing |
| RedisScripts.RedisStore.DecrStockAndIncrPurchase | redis/redis.go:325-366 | the plain combined script: result and whole new keyspace |
| RedisScripts.RedisStore.DecrStockAndIncrPurchaseWithIdempotent | redis/redis.go:255-323 | the idempotent combined script: result and whole new keyspace |
| ScriptRuns.DecisionTable | redis/redis.go:260-303 | each of the six outcomes under exactly one condition, in the order key, limit, existence, stock |
| ScriptRuns.RepliesTell | redis/redis.go:280-303 | the numbers a reply carries: what is left and bought after a success, what the buyer already had after a refusal |
| ScriptRuns.RejectionKeepsStock | redis/redis.go:260-303 | stock and counters stay as they are if and only if a guard refuses the call (live key, limit, missing product, short stock); one that passes them with a lifetime under a second takes the stock and errors |
| ScriptRuns.SuccessIsBothSingleSteps | redis/redis.go:75-147 | a success equals DecrStock followed by IncrUserPurchaseCount, within stock and limit |
| ScriptRuns.IdemAfter | redis/redis.go:260-268 | a live key blocks; any other is claimed for five seconds; other keys keep their expiry |
| ScriptRuns.ClaimLasts | redis/redis.go:260-268 | over any run a claimed key is held until at least five seconds after the claim |
| ScriptRuns.DuplicateWindow | redis/redis.go:255-303 | in every run two accepted submissions with one (user, product, key) are at least 5 s apart |
| ScriptRuns.DuplicateExactly | redis/redis.go:260-268 | a submission is refused as duplicate if and only if an accepted one with its key is younger than 5 s |
| ScriptRuns.FreshRunStates | redis/redis.go:255-366 | on fresh or empty keys the idempotent run keeps the stocks and counters of the plain run |
| ScriptRuns.FreshKeysRefinePlain | redis/redis.go:255-366 | on fresh or empty keys the idempotent script has the plain script's stocks, counters and replies, call by call |
| OrderStore.Database.GetOrderByOrderNo | dao/dao.go:228-235 | looks up the number in the caller's shard table only; the owner is not compared |
| OrderStore.Database.CreateOrder | dao/dao.go:204-209 | inserts into the owner's shard, refused exactly if the number is already there |
| OrderStore.Database.DeductProductStock | dao/dao.go:144-152 | guarded deduction: exactly if enough remains, and only that product |
| OrderStore.Database.RollbackProductStock | dao/dao.go:154-158 | adds the quantity back to an existing product |
| OrderStore.Database.UpdateOrderStatus | dao/dao.go:262-291 | changes the status of one row and nothing else |
| OrderHandlers.OrderService.CreateOrder | service/order_service.go:31-61 | idempotent creation: answer and database are those of the creation step, whose meaning is CreatedMeans |
| OrderHandlers.OrderService.Compensate | service/order_service.go:87-101 | both Redis compensations with their errors swallowed |
| OrderHandlers.OrderService.CancelOrder | service/order_service.go:63-103 | outcome and both stores after a cancellation, for every combination of failing calls |
| OrderHandlers.OrderService.ProcessTimeoutOrder | service/order_service.go:105-166 | outcome and both stores after a timeout message, whose own product and quantity are returned |
| OrderHandlers.OrderService.PayCallback | service/order_service.go:199-222 | answer and stores are those of the payment step, whose meaning is PayMeans |
| OrderHandlers.OrderService.Refund | service/order_service.go:226-263 | answer and stores are those of the refund step, whose meaning is RefundMeans |
| StepMeanings.PayMeans | service/order_service.go:199-222 | each answer of a payment has its own condition; the answer of success means that exactly the row is Paid now, and any other answer means no change |
| StepMeanings.PaidStays | service/order_service.go:199-222 | a Paid order ends Paid or Refunded in every run, never Cancelled or Timeout |
| StepMeanings.PaymentLasts | service/order_service.go:199-222 | so does an order from its payment on |
| StepMeanings.CancelMeans | service/order_service.go:63-103 | each answer of a cancellation has its own condition; success closes the row and returns the quantity to MySQL, Redis and the counter as far as each call succeeds |
| StepMeanings.RefundMeans | service/order_service.go:226-263 | the same for a refund of a Paid order |
| StepMeanings.TimeoutMeans | service/order_service.go:105-166 | a dead letter is done with if and only if its order is no longer Pending or is closed and restocked; a failed restock leaves Redis alone |
| StepMeanings.CreatedMeans | service/order_service.go:41-60 | creation succeeds if and only if the order is there already or MySQL holds the quantity; a new row is Pending and stays when the quantity is refused |
| StepMeanings.CompensationMeans | redis/redis.go:95-98 | stock and counter are given back as far as each call succeeds, and no other product or buyer is touched |
| StepMeanings.PublishMeans | service/seckill_service.go:164-193 | one message, naming the purchase, enters the order queue, and the same one the delay queue if that publication succeeds |
| StepMeanings.DeliveriesLeave | mq/consumer.go:52-81 | a delivery leaves its queue once if the broker forgets it; no other step but a publication touches a queue |
| StepMeanings.NewProductMeans | service/product_service.go:46-63 | a new product has its whole stock in MySQL, and in Redis if that write succeeds; no other product changes |
| StepMeanings.SettlementMeans | service/seckill_service.go:124-207 | a reservation is published, inserted, or given back, each under its condition and with its effect on every store and queue |
| ProtocolShape.StepKeepsShape | service/order_service.go:31-61 | every step keeps tickets, queue, order tables and issued numbers in agreement |
| ProtocolShape.UnusedNumber | service/seckill_service.go:125-134 | a fresh order number has neither a row nor a purchase in flight |
| ProtocolLaws.GuardNeverRefuses | dao/dao.go:144-152 | in a sound state MySQL still holds the stock of every purchase in flight, so the guard accepts it |
| ProtocolLaws.CounterCoversFlight | redis/redis.go:169-188 | a buyer's counter covers each purchase in flight, so giving it back subtracts exactly and deletes only at zero |
| ProtocolLaws.CounterCoversOrder | redis/redis.go:169-188 | the same for each Pending or Paid order |
| ProtocolLaws.QueuedPurchase | mq/consumer.go:41-84 | behind each queued message stands either its stored order or exactly that purchase in flight |
| ProtocolLaws.TimeoutAgrees | service/order_service.go:105-118 | in a well-formed state a timeout message names user, product and quantity of the stored order |
| ProtocolLaws.ReserveBooks | redis/redis.go:280-303 | a reservation keeps the books up to exactly the script-error leak |
| ProtocolLaws.GiveUpBooks | service/seckill_service.go:125-134 | a rollback keeps the books up to exactly what its failing compensations leave behind |
| ProtocolLaws.CreateDirectBooks | service/seckill_service.go:168-199 | a direct write keeps the books |
| ProtocolLaws.ConsumeBooks | mq/consumer.go:41-84 | a delivery, first or repeated, keeps the books up to exactly what a dropped message loses |
| ProtocolLaws.CancelBooks | service/order_service.go:63-103 | a cancellation keeps the books up to exactly its failed compensations |
| ProtocolLaws.RefundBooks | service/order_service.go:226-263 | the same for a refund |
| ProtocolLaws.ExpireBooks | service/order_service.go:105-166 | the same for a timeout |
| ProtocolLaws.StepBooks | service/order_service.go:31-263 | every admissible step moves the stock gap and the counter gap by exactly its leak, and keeps the MySQL equality |
| ProtocolRuns.LeaksAreLosses | service/order_service.go:87-101 | no step but an overwrite gains; clean steps leak nothing |
| ProtocolRuns.StepKeepsSound | service/order_service.go:31-263 | every admissible step keeps the laws; every clean step keeps them exact |
| ProtocolRuns.RunStaysSound | service/order_service.go:31-263 | any run with failing compensations and dropped messages stays sound |
| ProtocolRuns.RunStaysExact | service/seckill_service.go:94-207 | any clean run keeps all equalities |
| ProtocolRuns.Conservation | service/seckill_service.go:94-207 | after every clean run: remain_stock = Redis stock + in flight; remain_stock + Pending and Paid = initial stock; counter = the buyer's in flight, Pending and Paid, within the limit; all terms non-negative |
| ProtocolRuns.NeverOversold | dao/dao.go:144-153 | after every admissible run: no overselling, no buyer over the limit, MySQL equality exact, no reserved order refused by the guard |
| ProtocolRuns.LeakLedger | service/order_service.go:87-101 | the shortfall of Redis after a run is the sum of its steps' leaks, to the unit; likewise for each counter |
| ProtocolRuns.ReserveExactly | redis/redis.go:280-303 | a reservation keeps the books exact if and only if a guard refuses it or the counter lifetime is at least a second |
| ProtocolRuns.RunKeepsShape | service/order_service.go:31-263 | every run at all keeps tickets, queue, order tables and issued numbers in agreement |
| ProtocolRuns.PassesStayKnown | cron/reconciler.go:55 | a pass never lists a product that does not exist |
| ProtocolRuns.OverwriteSafeExactly | cron/reconciler.go:89-111 | writing a listed stock into Redis keeps the laws if and only if it is between zero and what is free by then, MySQL stock less quantity in flight |
| ProtocolRuns.OverwriteExactly | cron/reconciler.go:89-111 | in exact books the overwrite keeps them exact if and only if it writes what Redis holds |
| ProtocolRuns.FreshOverwriteSafeExactly | cron/reconciler.go:89-111 | with a listed stock that is still current the overwrite is safe if and only if nothing of the product is in flight |
| ProtocolRuns.OverwriteHeals | cron/reconciler.go:89-111 | with a current list and nothing of the product in flight one overwrite restores its equality whatever had leaked |
| ProtocolRuns.OverwritesHeal | cron/reconciler.go:55-111 | with nothing in flight the overwrites of any products keep the laws at every step, give each of them MySQL stock, and change nothing else |
| ProtocolRuns.ForeignReturnExactly | service/order_service.go:63-103 | with all calls succeeding, a cancellation or refund keeps the books exact if and only if the caller owns the order |
| ProtocolRuns.RestockNeededExactly | service/order_service.go:140-144 | a handler that wrote the final status keeps the MySQL equality if and only if its restock succeeds |
| OrderLifecycle.StatusStep | model/model.go:47-53 | any step keeps an order's content and moves its status along the life cycle, leaving Pending and Paid exactly when it gives the order back |
| OrderLifecycle.NewOrderStep | service/order_service.go:48-54 | orders appear as Pending |
| OrderLifecycle.ReturnedExactlyOnce | service/order_service.go:63-263 | over any run an order is returned once if it ends Cancelled, Timeout or Refunded and never otherwise |
| OrderLifecycle.StatusHistory | model/model.go:47-53 | over any run an order stays, keeps its content, and its status is reached by at most two life-cycle moves |
| OrderLifecycle.HandlerMovesOnce | service/order_service.go:63-263 | a returning handler adds the quantity once to MySQL, once to Redis and takes it once from the counter; payment moves none |
| OrderLifecycle.ReturnedInFull | service/order_service.go:63-263 | over a whole clean run the quantity of an order goes back to MySQL, to Redis and off the counter exactly once if it ends Cancelled, Timeout or Refunded and not at all otherwise |
| OrderLifecycle.TimeoutsAgree | service/seckill_service.go:191-193 | in every run from the empty system each timeout message agrees with the stored order |
| ProtocolFindings.ReconcilingInFlightOversells | cron/reconciler.go:89-111 | a concrete run in which a pass during a purchase ends with two orders for one unit |
| ProtocolFindings.StaleListReaches | cron/reconciler.go:55-103 | a concrete run to exact books with nothing in flight and a listed unit that is sold |
| ProtocolFindings.StaleListOversells | cron/reconciler.go:55-103 | the overwrite that follows ends with two orders for one unit |
| ProtocolFindings.LastSecondLeaks | redis/redis.go:293-303 | a concrete purchase in the last second after which the only unit is in no stock of Redis, no flight and no order |
| ProtocolFindings.ForeignCancelBlocksOwner | service/order_service.go:63-103 | user 17 of 16 shards cancels the order of user 1, who stays at the limit without an order |
| ProtocolFindings.FailedRestockLosesStock | service/order_service.go:77-86 | a cancellation whose restock fails loses the unit, and repeating it is refused |
| OrderDelivery.DeliveredSettles | service/order_service.go:41-57 | deliveries of messages that fit store each distinct order once and deduct it once |
| OrderDelivery.SettledUnique | service/order_service.go:41-57 | that outcome is determined by the set of messages |
| OrderDelivery.ExactlyOnceExactly | service/order_service.go:41-57 | any deliveries in any order with any duplicates have exactly-once effect if and only if the distinct new orders fit the stock |
| OrderDelivery.FailuresLeaveNoTrace | service/order_service.go:41-57 | a sequence of attempts ends in the database of its successful ones |
| OrderDelivery.AttemptsExactly | mq/consumer.go:59-76 | with failures, requeueing and overtaking, the orders with at least one successful attempt take effect exactly once and the others not at all, if and only if those new orders fit the stock |
| OrderDelivery.ArrivedExactly | mq/consumer.go:59-76 | a message has arrived if and only if one of its attempts succeeded |
| OrderDelivery.TriedExactly | service/order_service.go:41-60 | an attempt succeeds if and only if its row is there already, or its insert gets through and MySQL holds the quantity |
| OrderDelivery.VerdictExactly | mq/consumer.go:59-78 | acknowledged if and only if the attempt succeeds, dropped if and only if it fails at the last try, requeued otherwise |
| OrderDelivery.RedeliveryIsAcked | mq/consumer.go:59-78 | a redelivery of a message whose insert got through once is acknowledged whatever becomes of its own statements |
| OrderDelivery.OrderAndDuplicatesDoNotMatter | mq/consumer.go:41-84 | two delivery sequences of the same messages end in the same database |
| OrderDelivery.OrderMattersBeyondStock | service/order_service.go:52-57 | two concrete messages beyond the stock whose order shows in the stock |
| OrderDelivery.ConsumeOrders | mq/consumer.go:52-81 | the worker loop leaves the database of the attempts in order, failing inserts included, and acknowledges, requeues or drops each accordingly |
| SeckillService.PurchaseKeepsSound | service/seckill_service.go:94-207 | a purchase keeps a sound system sound whatever fails along the way |
| SeckillService.PurchaseExactly | service/seckill_service.go:91-207 | a purchase that no guard refuses keeps the books exact, all later calls succeeding, if and only if the activity lasts at least one more second |
| SeckillService.EarlyAnswers | service/seckill_service.go:44-92 | each refusal before the script has its own condition, in order: product, status, time, variant, limit |
| SeckillService.ScriptAnswers | service/seckill_service.go:94-122 | each refusal by the keyspace has its own condition, in order: live key, limit, missing stock, short stock, last second |
| SeckillService.DownWithoutReply | service/seckill_service.go:98-105 | no script or no reply is answered as Redis down |
| SeckillService.LateAnswers | service/seckill_service.go:124-207 | the buyer is told queued, with the number, if and only if the stock was taken, the order has number and message, and the queue or MySQL took it; each failure has its own answer |
| SeckillService.FailedPurchaseUndone | service/seckill_service.go:124-187 | a purchase that is not queued after all leaves stock, counter, MySQL stock and queues as they were, the calls succeeding |
| SeckillService.RollbackUndoesReservation | service/seckill_service.go:125-134 | a rolled-back purchase leaves no trace in stock and counters, down to the presence of the key |
| SeckillService.Backend.CreateProduct | service/product_service.go:33-65 | a failed insert changes nothing, failed variants leave Redis without stock, otherwise the product has equal total, MySQL and (if preloaded) Redis stock; the limit is at least one |
| SeckillService.Backend.ExecuteSeckill | service/seckill_service.go:38-207 | a refusing check changes nothing; any other purchase, also one whose script reply is lost, is exactly one or two protocol steps; the answer is the one of EarlyAnswers, ScriptAnswers and LateAnswers; a queued order is in the queue or stored as Pending |
| SeckillService.Backend.TakeReservation | service/seckill_service.go:94-122 | the script call is the reservation step |
| SeckillService.Backend.CompletePurchase | service/seckill_service.go:124-207 | publish, direct creation or rollback, as the environment answers, with the answer that belongs to it |
| SeckillService.Backend.PublishOrder | service/seckill_service.go:164-193 | order message and timeout message enter their queues, the purchase stays in flight under its row |
| SeckillService.Backend.CreateDirectly | service/seckill_service.go:166-187 | the fallback write is the direct-creation step, or the rollback step if it fails |
| SeckillService.Backend.Rollback | service/seckill_service.go:125-134 | stock and counter of the purchase are given back and nothing else |
| SeckillService.Backend.HandleOrderMessage | mq/consumer.go:52-81 | one delivery is one consume step; it counts as created if and only if the order was there or is inserted within MySQL stock |
| SeckillService.Backend.HandleTimeoutMessage | mq/consumer.go:97-127 | one dead letter is one expire step, with the handler's outcome |
| SeckillService.Backend.ListStocks | cron/reconciler.go:55 | listing the products is the read step of a pass |
| Reconciler.ReconcileSingleProduct | cron/reconciler.go:89-111 | a difference is counted; if recording and writing succeed it is fixed, which is the overwrite step of the protocol, and nothing happens otherwise |
| Reconciler.ReconcileWithRetries | cron/reconciler.go:59-76 | at most three attempts with the listed stock, stopping at the first success: together one overwrite step or none |
| Reconciler.RunReconciliation | cron/reconciler.go:31-86 | nothing without the lock or the list; otherwise a run of the protocol, one listing and one overwrite per fixed product, with the outcome and the counts of all products |
| Reconciler.ReconciledExactly | cron/reconciler.go:59-111 | a product ends equal to MySQL if and only if it started so or an attempt completes; fixed at most once |
| Reconciler.DoneExactly | cron/reconciler.go:61-71 | a product is done with if and only if an attempt completes or finds the stocks equal |
| Reconciler.DiffsExactly | cron/reconciler.go:89-100 | every attempt made on a product that differs counts a difference, unless its read fails |
| Reconciler.DoneMeansEqual | cron/reconciler.go:59-76 | a product not given up ends equal to the listed stock |
| Reconciler.SecondPassFindsNothing | cron/reconciler.go:31-86 | after a first pass that gave no product up, a second pass over the same list counts no difference and no fix and overwrites nothing |
| Reconciler.WholePassHeals | cron/reconciler.go:31-111 | with nothing in flight a pass over all products that gives none up is a run that keeps the laws and ends with Redis equal to MySQL for every product |
| Reconciler.NextPassIsIdle | cron/reconciler.go:31-111 | a pass over stocks that agree only lists: it changes neither store, whatever becomes of its attempts |
| Reconciler.PassThenIdle | cron/reconciler.go:31-111 | both together: one pass with nothing in flight restores full equality and makes the next a no-op |
| SingleFlight.StepKeepsInv | singleflight/singleflight.go:51-94 | every step with timely sweeps keeps the table in order |
| SingleFlight.RunKeepsInv | singleflight/singleflight.go:51-94 | so does every run |
| SingleFlight.OneExecutionPerKey | singleflight/singleflight.go:51-94 | at most one execution of fn per key is in progress |
| SingleFlight.JoinersAgree | singleflight/singleflight.go:53-67 | all callers of one call return the same value and error, and never the sweep's timeout |
| SingleFlight.EntersLiveCall | singleflight/singleflight.go:51-73 | a caller enters a call that is in the table under its key, never one removed before |
| SingleFlight.EnterMeans | singleflight/singleflight.go:51-73 | a caller gets a finished result at once, waits for a call in progress, and leads a new call otherwise |
| SingleFlight.FinishMeans | singleflight/singleflight.go:75-78 | when fn returns, its value and error become the result of its call and nothing else changes |
| SingleFlight.FinishDecides | singleflight/singleflight.go:75-94 | in every run that result stays, and every caller of the call that returns has got it |
| SingleFlight.ResultsAreReturned | singleflight/singleflight.go:75-94 | conversely every result of a run is the outcome with which its call's leader finished |
| SingleFlight.SweepMeans | singleflight/singleflight.go:162-179 | a sweep takes old entries out of the table, times out and signals those still executing, and changes nothing else |
| SingleFlight.StepKeepsCalls | singleflight/singleflight.go:51-94 | calls keep key and result, callers keep their call and what they returned |
| SingleFlight.FateOfCaller | singleflight/singleflight.go:51-94 | over any run what a caller returns is the result of the call it entered |
| SingleFlight.StepKeepsCounted | singleflight/singleflight.go:53-70 | every step keeps the count of each call equal to the number of its callers, whatever a sweep finds |
| SingleFlight.RunKeepsCounted | singleflight/singleflight.go:53-70 | so does every run |
| SingleFlight.DeleterOwnsEntry | singleflight/singleflight.go:80-91 | delete-by-key removes the deleter's own entry |
| SingleFlight.SweepSafeExactly | singleflight/singleflight.go:162-179 | a sweep keeps the invariant if and only if it meets no entry older than ten seconds |
| SingleFlight.StaleSweepSplits | singleflight/singleflight.go:162-179 | otherwise a second execution starts and the first call is signalled twice |
| TimedFlight.NothingStale | singleflight/singleflight.go:168-175 | if function and window together end within ten seconds, no entry of the table is old at any time |
| TimedFlight.EventKeepsTimed | singleflight/singleflight.go:51-94 | every event under a clock keeps every unremoved call within its limits |
| TimedFlight.PunctualRuns | singleflight/singleflight.go:51-179 | every run under such limits is a run whose sweeps find nothing old |
| TimedFlight.PunctualFlight | singleflight/singleflight.go:51-179 | in every such run: one execution per key at a time, at most one signal per call, the same outcome for all callers of a call and never a timeout |
| TimedFlight.PunctualCaller | singleflight/singleflight.go:51-179 | whoever enters during such a run enters a call nobody has removed by then, stays bound to it, and can only return what its function left there |
| TimedFlight.PunctualResult | singleflight/singleflight.go:51-179 | what the function returned, value and error, is what everybody in its call gets |
| TimedFlight.TenSecondsExactly | singleflight/singleflight.go:162-179 | no run breaks the table if and only if function and window together take at most ten seconds |
| TimedFlight.ThirtySecondsSplit | singleflight/singleflight.go:162-179 | a concrete run with two executions for one key and a second signal |
| TimedFlight.ShardsPunctual | singleflight/singleflight.go:99-179 | under the same limits every run of the sharded group refines the unsharded one and keeps its invariant |
| SingleFlight.CallGroup.BeginDo | singleflight/singleflight.go:51-73 | entry section: cached result with the count, join, or new call |
| SingleFlight.CallGroup.AwaitResult | singleflight/singleflight.go:62-66 | a joiner returns the value, the error and the count of its call |
| SingleFlight.CallGroup.EndDo | singleflight/singleflight.go:75-93 | exit section with and without a merge window, and the count the leader returns |
| SingleFlight.CallGroup.WindowEnds | singleflight/singleflight.go:82-86 | the window timer deletes by key |
| SingleFlight.CallGroup.Cleanup | singleflight/singleflight.go:162-179 | the sweep loop, in any order of the keys, is the sweep step |
| SingleFlight.CallGroup.Stats | singleflight/singleflight.go:151-159 | number of entries and of callers beyond their leaders |
| SingleFlight.ExtraCountsCallers | singleflight/singleflight.go:155-157 | what is summed for a call is the number of its callers beyond the leader |
| ShardedFlight.Hash | singleflight/singleflight.go:123-130 | the accumulating loop is 64-bit FNV-1a |
| ShardedFlight.HashOfA | singleflight/singleflight.go:123-130 | the hash of the key "a" is the published FNV-1a value |
| ShardedFlight.ShardCountIsPower | singleflight/singleflight.go:105-108 | the bit test is exact: any positive power of two is kept, anything else becomes 256 |
| ShardedFlight.RouteInRange | singleflight/singleflight.go:117-120 | masking equals the remainder and is a valid index |
| ShardedFlight.PickShard | singleflight/singleflight.go:117-120 | the routed shard exists |
| ShardedFlight.LocalStepRefines | singleflight/singleflight.go:117-120 | a step in one shard is the same step of the union |
| ShardedFlight.EnabledTogether | singleflight/singleflight.go:117-120 | a shard is ready for whatever the unsharded group is ready for |
| ShardedFlight.ShardedRefinesSingle | singleflight/singleflight.go:99-120 | in every run the union of the shards is one unsharded group taking the same steps, with the same results |
| ShardedFlight.ShardSweepRefines | singleflight/singleflight.go:162-179 | sweeping one shard is sweeping its keys of the union, also when it finds old entries |
| ShardedFlight.AllSweepsRefine | singleflight/singleflight.go:162-179 | the sweeps of all shards are one sweep of the union |
| ShardedFlight.StatsAgree | singleflight/singleflight.go:133-140 | summed statistics of the shards are those of the union |
| Snowflake.PackExactly | utils/utils.go:146 | the three fields do not overlap; the identifier is their plain sum if and only if the time is within 2^41 ms of the epoch, and then it is non-negative if and only if the time is not before the epoch |
| Snowflake.DecodePack | utils/utils.go:104-147 | a packed identifier decodes to its time, worker and sequence |
| Snowflake.WorkersNeverCollide | utils/utils.go:104-147 | different workers never produce the same identifier |
| Snowflake.Generator.NextID | utils/utils.go:128-147 | the method with its sequence-wrap wait computes the next state and identifier |
| Snowflake.NewSnowflake | utils/utils.go:121-126 | a worker id is accepted exactly in 0..1023 |
| Snowflake.NextIncreases | utils/utils.go:128-147 | an error exactly on a backward clock, with no change; a success is larger than every identifier before, and non-negative if the clock is past the epoch |
| Snowflake.NextMeans | utils/utils.go:128-147 | a success carries the first reading, or the first later one when the millisecond is used up; numbers within a millisecond go up one by one |
| Snowflake.IdTellsTime | utils/utils.go:146 | read back, an identifier tells its time, worker and number |
| Snowflake.IdsIncrease | utils/utils.go:128-147 | over any clock readings within 2^41 ms of the epoch the identifiers of one generator strictly increase and fit 64 bits |
| BufferedIds.StepKeepsDistinct | utils/utils.go:173-201 | every step keeps handed out, buffered and held identifiers pairwise distinct |
| BufferedIds.RunStaysDistinct | utils/utils.go:173-201 | so does every interleaving |
| BufferedIds.NoIdTwice | utils/utils.go:173-209 | no identifier is handed out twice and the order numbers are pairwise distinct |
| BufferedIds.OrderNoInjective | utils/utils.go:203-209 | order numbers agree if and only if the identifiers do |
| BufferedIds.IdBuffer.FillOne | utils/utils.go:173-180 | one turn of the filler |
| BufferedIds.IdBuffer.SendHeld | utils/utils.go:181-183 | the held identifier enters the channel |
| BufferedIds.IdBuffer.NextID | utils/utils.go:189-197 | takes the oldest buffered identifier, or generates when none is buffered |
| BufferedIds.IdBuffer.Close | utils/utils.go:199-201 | closing only raises the flag; the filler may go on until it notices |
| BufferedIds.IdBuffer.EndFilling | utils/utils.go:181-186 | the waiting filler notices the closing, drops its identifier and ends |
| BufferedIds.ClosingEnds | utils/utils.go:181-201 | closing lets a waiting filler end with nothing but its held identifier dropped |
| BufferedIds.EndIsFinal | utils/utils.go:173-187 | an ended filler holds and sends nothing in any run |
| DistLock.PeriodBelowTtl | redis/lock.go:63-79 | the renewal period is below the truncated lifetime if and only if the lifetime is at least one second, then with a third of a second to spare |
| DistLock.LifetimesAreAsked | redis/lock.go:27-77 | the lifetimes set are those asked for, up to Redis units |
| DistLock.HolderIsAlone | redis/lock.go:24-42 | a holder's key is alive and its own, and there is no other holder |
| DistLock.StepKeepsInv | redis/lock.go:24-79 | every step within the tick delay keeps this |
| DistLock.MutualExclusion | redis/lock.go:24-79 | in every run with bounded tick delay no key expires before its unlock and no second client holds the lock |
| DistLock.NobodyTouchesForeignLock | redis/lock.go:44-79 | however late the ticks, no other client deletes, extends or takes a live lock |
| DistLock.UnlockFrees | redis/lock.go:44-61 | unlocking the own live lock frees it for the next client at once |
| DistLock.FailedTryIsIdle | redis/lock.go:27-36 | a try on a held lock changes nothing |
| DistLock.StepKeepsBounded | redis/lock.go:24-79 | every step keeps the key within its owner's lifetime |
| DistLock.DeadClientIsForgotten | redis/lock.go:24-79 | a client that dies with the lock blocks others no longer than the lifetime it asked for |
| DistLock.ForeignUnlockExactly | redis/lock.go:48-53 | another client's unlock leaves a live lock alone if and only if the lock values differ |
| DistLock.ShortLockDeletesItself | redis/lock.go:71-77 | a renewal removes the holder's key if and only if its lifetime is below one second, and then a second client gets in |
| DistLock.ShortLockRun | redis/lock.go:63-79 | a concrete run: a lock for 500 ms, its first tick on time, and two holders |
| DistLock.LockLoop | redis/lock.go:24-42 | the acquisition loop ends with the first error, the first free attempt, or the first failed attempt past the deadline |
| DistLock.Lock.TryAcquire | redis/lock.go:27-36 | acquires exactly if no live key exists |
| DistLock.Lock.RenewTick | redis/lock.go:70-77 | extends only the own key, by whole seconds |
| DistLock.Lock.Release | redis/lock.go:44-61 | deletes only the own key and reports whether it was held, also for a lock never acquired |
| WebSocketHub.StepKeepsInv | websocket/hub.go:96-135 | every step keeps one open channel per mapped client and each channel closed at most once |
| WebSocketHub.RunKeepsInv | websocket/hub.go:96-135 | so does every run |
| WebSocketHub.NoPanic | websocket/hub.go:96-230 | for every order of steps no channel is closed twice, every mapped client's channel is open, and no broadcast sends on a closed one |
| WebSocketHub.BroadcastReaches | websocket/hub.go:117-132 | a broadcast reaches exactly the mapped clients, each gets the message or is marked for removal |
| WebSocketHub.FirstInFirstOut | websocket/hub.go:117-192 | along any run messages leave a client's buffer in the order they came, none lost and none twice |
| WebSocketHub.FullExactly | websocket/hub.go:124-130 | a buffer is full at 256 messages and never holds more |
| WebSocketHub.ConnectMeans | websocket/hub.go:151-160 | a new connection has an empty open channel and is not mapped before it registers |
| WebSocketHub.RegisterMeans | websocket/hub.go:99-107 | the newcomer is mapped with an open channel, the connection it replaces is closed, nobody else is touched |
| WebSocketHub.RemoveMeans | websocket/hub.go:109-115 | a removed client is out of the map with its channel closed, a client not mapped changes nothing, nobody else is touched |
| WebSocketHub.SecondRegistrationBreaks | websocket/hub.go:99-107 | registering a mapped connection again would leave it mapped with a closed channel |
| WebSocketHub.EventLoop.OnRegister | websocket/hub.go:99-107 | the register branch, without a second close |
| WebSocketHub.EventLoop.OnUnregister | websocket/hub.go:109-115 | the unregister branch, ignoring connections no longer mapped |
| WebSocketHub.EventLoop.UnregisterClient | websocket/hub.go:221-230 | the asynchronous removal |
| WebSocketHub.EventLoop.OnBroadcast | websocket/hub.go:117-132 | the loop over the clients, in any order, is the broadcast step |
| AnomalyDetector.Profile.constructor | detector/anomaly.go:107-114 | a new profile with a window of the configured size, 20 if it is not positive |
| AnomalyDetector.Profile.Record | detector/anomaly.go:121-165 | a blocked request leaves no trace; otherwise the window is the last min(count, window size) samples of the whole history in order, whichever request created the profile |
| AnomalyDetector.Profile.Store | detector/anomaly.go:141-151 | the written slot is the newest sample and the older window stays intact |
| AnomalyDetector.Profile.SlotHolds | detector/anomaly.go:163-164 | the computed position holds the sample recorded that many requests ago |
| AnomalyDetector.Profile.Extract | detector/anomaly.go:160-165 | the backward extraction loop yields the window in chronological order |
| AnomalyDetector.IntervalsSpanWindow | detector/anomaly.go:131-169 | the window's intervals add up to the time between its first and last sample, the span the frequency divides by |
| AnomalyDetector.SampleMeans | detector/anomaly.go:128-147 | a sample holds its request's time and success, the time since the one before, and whether the address is another than before |
| AnomalyDetector.NoFlagExactly | detector/anomaly.go:134-136 | a stretch of the history carries no flag if and only if it comes from one address |
| AnomalyDetector.KeptExactly | detector/anomaly.go:334-340 | the first sample is left out and every usable interval is kept as often as it occurs |
| AnomalyDetector.CalcIntervalStats | detector/anomaly.go:329-359 | the loops compute mean and variance of the intervals in (0, 300) after the first sample, zero if there are none |
| AnomalyDetector.VarianceFormula | detector/anomaly.go:346-356 | the variance is (n·Σx² − (Σx)²) / n² |
| AnomalyDetector.VarianceZeroExactly | detector/anomaly.go:329-359 | the variance is non-negative and zero if and only if all kept intervals are equal; the mean is zero if and only if none is kept |
| AnomalyDetector.GlobalStats.UpdateGlobalStats | detector/anomaly.go:288-308 | both channels follow the smoothing of their whole input sequence |
| AnomalyDetector.SmoothedWithin | detector/anomaly.go:288-308 | over any inputs the mean stays between the extremes and the deviation in [0, 0.99 · range] |
| AnomalyDetector.MeanApproaches | detector/anomaly.go:303-307 | while one value keeps coming the distance of the mean from it shrinks by one hundredth each time |
| AnomalyDetector.SmoothedConstantExactly | detector/anomaly.go:288-308 | the deviation is zero if and only if all inputs were equal |
| StatsEngine.Engine.RecordRequest | monitor/stats.go:166-169 | one more request in total, still accounted for by history and bucket |
| StatsEngine.Engine.TickStats | monitor/stats.go:121-142 | the bucket joins the series, the history stays its last 120, no request is lost, a new day starts the visitors over |
| StatsEngine.Engine.RecordVisit | monitor/stats.go:146-163 | every visit counts; unique visitors are counted exactly while they fit the tracking set |
| StatsEngine.VisitKeeps | monitor/stats.go:152-162 | one visit keeps the tracked set and the unique count in agreement with all visits of the day |
| StatsEngine.Engine.GetQPS | monitor/stats.go:188-205 | the mean of the last min(5, n) seconds of the full series |
| StatsEngine.Engine.GetQPSHistorySeconds | monitor/stats.go:208-224 | times and values of the same last seconds |
| StatsEngine.Engine.RecordAlarm | monitor/stats.go:284-306 | accepted if and only if it has a message and no accepted alarm with its key is younger than 30 s; any two accepted ones with one key are 30 s apart; the buffer is the last 100 |
| StatsEngine.SeenAtDecides | monitor/stats.go:291-294 | one remembered time per key decides as if all accepted alarms were compared |
| StatsEngine.ThirtySeconds | monitor/stats.go:292 | an equal alarm is accepted again from the thirtieth second on |
| StatsEngine.AcceptKeeps | monitor/stats.go:295-305 | accepting keeps spacing, memory and buffer |
| StatsEngine.KeysSeparate | monitor/stats.go:291 | without bars in level and source, keys agree if and only if the trimmed parts do |
| StatsEngine.Engine.GetStatsAlarms | monitor/stats.go:309-321 | the newest accepted alarms first, up to the limit or all that are kept |
| SkuAttrs.BuildSKUAttrs | service/product_service.go:156-182 | one attribute per name, in the order of the first variant naming it, with its values in first-occurrence order, for every order in which names come |
| SkuAttrs.PairsExactly | service/product_service.go:165-175 | the output holds each (name, value) of the variants exactly once and nothing else |
| SkuAttrs.DedupInOrder | service/product_service.go:171-174 | of two kept values the earlier one occurs before the later one does at all |
| SkuCombos.GenerateSkus | frontend/src/views/AdminPages/GoodsManage.vue:170-195 | nothing without a usable row, otherwise the combinations, cut after fifty |
| SkuCombos.CompleteExactly | frontend/src/views/AdminPages/GoodsManage.vue:178-188 | all combinations are generated if and only if there are at most fifty |
| SkuCombos.CutKeepsFirst | frontend/src/views/AdminPages/GoodsManage.vue:187 | the fifty that are kept are the first of the first rows that have more |
| SkuCombos.ProductExactly | frontend/src/views/AdminPages/GoodsManage.vue:178-188 | the list holds exactly the choices of one value for every attribute |
| SkuCombos.LastRowKeptExactly | frontend/src/views/AdminPages/GoodsManage.vue:187 | the last row takes part if and only if the rows before it have at most fifty combinations |
| SkuCombos.WeightIsLost | frontend/src/views/AdminPages/GoodsManage.vue:187 | three concrete rows with 8, 7 and 1 values whose combinations come out without the third attribute |
| SkuCombos.RoundTrip | service/product_service.go:156-182 | grouping the generated combinations gives back the attribute names, each with its values in row order without repetitions |
| SkuCombos.JoinParseExactly | frontend/src/views/AdminPages/GoodsManage.vue:214 | showing values as text and reading them again is lossless if and only if each is non-empty, trimmed and comma-free |
| SkuCombos.EitherCommaSplits | frontend/src/views/AdminPages/GoodsManage.vue:172 | the ASCII and the full-width comma both separate values |
| SkuCombos.TrimExactly | frontend/src/views/AdminPages/GoodsManage.vue:172 | trimming takes blanks off both ends and nothing else |
| SkuCombos.ReloadRegenerates | frontend/src/views/AdminPages/GoodsManage.vue:199-219 | reloading a saved product and generating again gives exactly its combinations, each once |

## Left out

- A database error between the order insert and the stock deduction: the two writes are not one transaction, and the model lets an insert error mean that nothing was written.
- Interleavings inside the handlers of one order, and replica lag on reads: each handler is one step over current data.
- Expiry of the purchase counter when the activity ends, and a limit changed during a run.
- Admin edits of the stock and `BatchImportOrders`: they change stock outside the reservation protocol; preloading and relisting behave like an overwrite by the reconciler.
- The retry count in message headers: requeueing and dropping are free choices, because redelivery is up to the broker.
- Message bodies that do not parse, and date formats in product requests: both are refused before any store is read.
- Product cache, prices, amounts, variant text in order names, order lists and pagination, login, captcha and path tokens.
- `PushToUser` and `PushToRole`, which send outside the lock, and the connection counter.
- `AcquireLockWithRenewal`, which has no owner token; the reconciler's lock is an answer of the environment, because it is one per instance and excludes nothing.
- The detector's scoring, its 30-minute profile cleanup and the square root of the variance; `IsBlocked` only reads.
- Hot products, latency totals and the combined snapshot of the statistics engine: they would only add easy members.
- SingleFlight.CallGroup.AwaitResult: does not model that the count is read without the lock a moment after the wait has ended.
- SingleFlight.CallGroup.EndDo: does not model that value, done flag and signal are written one after the other without the table's lock.
- OrderStore.Database.UpdateOrderStatus: does not model the time and reason columns, which nothing in the model reads.
- ShardedFlight.Hash: keys are ASCII, so a character is a byte.
- Snowflake.Generator.NextID: is given enough clock readings to end the wait for the next millisecond.
- DistLock.LockLoop: judges the attempts of one call by the readings given to it and does not model the 10 ms sleep.
- AnomalyDetector.CalcIntervalStats: works on reals, so rounding is not modelled, and gives the variance instead of its square root.
- StatsEngine.Engine.RecordAlarm: reads the clock once per call, where the code reads it three times inside one locked section.
- SkuCombos.GenerateSkus: does not model the prices and stocks kept for combinations that were there before, and splits text without Unicode normalisation.
