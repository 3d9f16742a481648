# The order pipeline, modelled and proved

The platform takes an order over HTTP, reserves stock in another service over a retried RPC, writes
the order and an outbox row in one transaction, publishes the row from a polling relay under a stable
message id, and adds each delivered event to running totals. This project models that path from
`POST /orders` to the analytics totals, and proves what holds of every run of it.

There are two layers, built from the same functions.

* **Components.** Each source file that changes state is a class whose methods are proved against a
  function of the old state: `Inventory`, `Cache`, `InventoryClient`, `Retry`, `Orders`, `Outbox`,
  `Relay`, `Broker`, `Analytics`. Faults (a statement that never ran, an answer that was lost, a
  failed `Del`, an ambiguous publish, an error from `Commit` after it took effect) are arguments, so a
  method's contract covers every fault.
* **The system.** `Protocol` is one state machine with a step for every atomic action of a database,
  the broker, a relay, a consumer or the network. A run is any sequence of actions whatever: any number
  of overlapping requests, restocks and relays, crashes between any two steps, late executions of
  abandoned RPCs, late arrivals of abandoned publishes, redeliveries, restarts. `StockSafety`,
  `EventSafety` and `EventAccounting` show what each step keeps; `Pipeline` has the theorems about every
  run. `Progress` has what one relay's sequential polls achieve, `Liveness` what its polls achieve, and
  cannot achieve, with anything else interleaved, and `Settling` that every reachable state can still
  come to rest. `Scenarios` has runs showing that the stated
  conditions are needed, and shows that the relay's sequential poll is itself such a run; `Requests`
  shows the same of the handler with its retry loop.

Two modules stand beside it: `CacheRace` breaks the cache-aside operations into single Redis commands
and SQL statements, and `Retry` carries the arithmetic of the wrapping backoff.

## Assumptions

* A single SQL statement and a transaction are atomic, and the constraints of the two `schema.sql`
  files are enforced. A statement or commit whose answer is lost has either taken effect or not by the
  time its caller moves on.
* The stream is durable. The broker stores and acknowledges a message, drops a message id stored less
  than a window ago (later it may forget the id at any time, or not), and redelivers until acked. A
  publish that its relay gave up on may still arrive, once, at any later time.
* `Env.strictUnavailable` is the client's assumption that `Unavailable` means the request never
  reached the server. Every theorem says whether it uses it; most do not.

## Where the code does not keep its own comments

* `inventory-service/internal/inventory/caching_store.go:20-25` says stock is never served stale. One
  operation at a time, a step keeps the cache right if and only if it is not a write that took effect,
  skipped its invalidation and left a live entry (`StepKeepsCoherence`). With overlap it fails even if
  every command succeeds (`StaleHit`). It holds, outside the time between a write and its `Del`, if and
  only if no step is one of three: a write that took effect without an answer, an item's last pending
  `Del` failing, or a `Set` that comes after the row changed and after the `Del` (`OvertakingIsExact`
  for a step, `FreshThroughout` for a run). Taken literally, with the time before the `Del` counted, it
  holds if and only if no UPDATE changes a row under a live entry and no `Set` comes after its row
  changed (`OutdatingIsExact`, `NeverStaleExactly`). The staleness always has a bound
  (`BoundedStaleness`).
* `order-service/internal/retry/retry.go:50` says the delay is base*2^attempt capped at the maximum.
  That is what is computed at every attempt, and the caps never decrease, if and only if no zero bit of
  the base aliases (`CapExact`, `CapsNeverDecrease`); `CapCollapse` is an input where one does. The
  production values are safe.
* `order-service/internal/inventoryclient/client.go:82-87` takes `Unavailable` to mean that nothing was
  executed. Without it one order can take stock twice (`DoubleReservationHappens`) and at most six times.
* The repository's `README.md:278-285` calls the relay's retries safe however many times they fire. With
  a broker that forgets as soon as it may, one more publish of a row that arrives, while its relay waits
  or after it gave up, stores one more copy exactly when every stored copy is a window old
  (`AnotherCopyExactly`); and over a whole run a row has no second copy exactly if every publish of it
  that arrives does so within the window of the stored copy (`NoSecondCopyExactly`). With any broker that
  condition is enough (`NoSecondCopy`), and there is a bound (`DuplicateBound`), which is reached for
  every number of copies (`ManyCopiesHappen`). What counts is when publishes arrive: late arrivals make
  copies of attempts made at one instant (`LateArrivalHappens`).
* `inventory-service/internal/inventory/store.go:57-60` reports insufficient stock for an item that does
  not exist when the follow-up read fails (`MissingItemCalledInsufficient`); `VerdictAtUpdate` says that
  this is the only wrong verdict.
* `order-service/internal/order/handler.go:103-107` answers 500 without releasing the stock, and after
  an ambiguous commit the order may exist (`OneOrderOutcome`).

## Model

| member | source | states |
|---|---|---|
| Pipeline.EveryRunIsOk | order-service/internal/order/handler.go:44-112 | every state of every run, from any valid seed, satisfies the joint invariant of stock, requests, order tables, relays, stream, dedup memory, deliveries and totals |
| Pipeline.GlobalAccounting | inventory-service/internal/inventory/store.go:47-86 | per item and in every run: stock is seed plus restocks minus committed reservations and fits its column; persisted orders never exceed committed reservations; stock matches the orders exactly if and only if no request took more than it ordered; no assumption about Unavailable |
| Pipeline.EveryRequest | order-service/internal/order/handler.go:55-111 | at most six reservations per request, at most one under the Unavailable assumption, then exactly one behind 201 and 500 and none behind 400, 404 and 409; a 201 has its order stored with the quantity the RPC reserved |
| Requests.OneRequestExactly | order-service/internal/order/handler.go:44-112 | a request served without faults, from any state and for any quantity, in terms of the tables alone: 502 if and only if int32 leaves no positive quantity, 404 if there is no such item, 409 if there is too little of it; otherwise its stock is lower by exactly what the RPC carried, and 201 if and only if both ids are new, the quantity is an INTEGER and the commit goes through, with exactly this order and its event appended |
| Requests.CreatedTakesQuantity | order-service/internal/inventoryclient/client.go:108-116 | a 201 whose RPCs went to a server that does what each request says: the last one lowered the item by exactly the ordered quantity, all together by as many times as took stock, which is once if Unavailable means unsent |
| Pipeline.NothingLostNothingInvented | order-service/internal/outbox/relay.go:52-85 | orders and outbox rows correspond one to one, every row marked published has its own event in the stream, every message and every recorded delivery is a committed order's event |
| Pipeline.StoredIsOwnEvent | order-service/internal/outbox/relay.go:83-84 | whatever the stream holds under a row's id is that row's event |
| Pipeline.AcknowledgedIsStored | order-service/internal/events/publisher.go:73-86 | a relay that got an acknowledgement, from a store or from a dedup drop, finds that row's own event in the stream |
| Pipeline.DuplicateBound | order-service/internal/events/publisher.go:64-72 | if all publishes of a row that reach the broker, in time or late, do so between two times, at most 1 + (last - first)/window copies of it are stored, however many publishes were ambiguous or marks lost |
| Pipeline.DuplicateBoundByAttempts | order-service/internal/outbox/relay.go:59-70 | in terms of the attempts: if no publish takes longer than a given time to arrive, that time is all that is added to the bound |
| Pipeline.AnotherCopyExactly | order-service/internal/events/publisher.go:64-72 | in every reachable state, once the broker has forgotten the id if it may, a publish that arrives, in time or after its relay gave up, stores another copy if and only if every stored copy is a window old |
| Pipeline.CopiesAreSpaced | order-service/internal/events/publisher.go:64-72 | the n-th copy of a message is stored at least n-1 windows after the first |
| Pipeline.NoSecondCopy | order-service/internal/events/publisher.go:64-72 | if every publish of a row that arrives does so within the window of the stored copy, it has no second copy, whatever happens to other rows |
| Pipeline.NoSecondCopyExactly | order-service/internal/events/publisher.go:64-72 | for a positive window, over every run in which the broker has forgotten the id if it may whenever a publish of it arrives: a row has at most one copy if and only if every publish of it that arrives does so within the window of each stored copy |
| Pipeline.ExactAccounting | analytics-service/internal/events/subscriber.go:81-100 | in every run, by count and by quantity: orders plus second copies plus repeated recordings equal rows not in the stream plus messages not yet handled plus recordings since the last start plus those a restart forgot; the totals are the latter sums in Go's int |
| Pipeline.ExactlyOnceConservation | analytics-service/internal/events/subscriber.go:81-100 | with publishes arriving in the window, no repeated recording and no restart, every order is in exactly one place at every step, by count and by quantity: its row, its message, or the totals (the totals themselves up to 2^32 recordings, their wrapped sum always) |
| Pipeline.TotalsAtRest | analytics-service/internal/analytics/stats.go:37-56 | when nothing is under way the totals are, in Go's int, the orders table plus repeats less what restarts forgot; up to 2^32 recordings they match the table if and only if these balance |
| Pipeline.TotalsMatchOrders | analytics-service/internal/analytics/stats.go:48-56 | with each order published and handled once, the snapshot at rest is the number of orders in the table and the sum of their quantities |
| Settling.CanSettle | order-service/internal/outbox/relay.go:37-71 | from every reachable state, whatever went wrong before, one relay that starts again can publish and mark every row, and the consumer can record and acknowledge every message: orders, stock and responses stay as they are |
| Settling.ConsumerStepsExactly | analytics-service/internal/events/subscriber.go:93-99 | a delivery is recorded each time, an ack is remembered, a restart forgets the totals and nothing else |
| Settling.RestockStepExactly | inventory-service/internal/inventory/store.go:69-86 | a restock in the system is accepted if and only if its statement runs, the item exists and its column can hold the sum |
| Settling.ArriveExactly | order-service/internal/order/handler.go:45-53 | a request begins its first RPC, or is answered 400 without one |
| Settling.AbandonedCallTakes | order-service/internal/inventoryclient/client.go:82-87 | an RPC given up on with DeadlineExceeded is answered 502 and may take stock afterwards |
| Pipeline.TotalsAreExact | analytics-service/internal/analytics/stats.go:37-46 | the totals cannot wrap before 2^32 recordings; until then they are the exact count and sum |
| Pipeline.OrderIsFinal | order-service/internal/order/handler.go:55-70 | a response is final, and no step but the transaction gives a request an order |
| Pipeline.PersistNamesOrder | order-service/internal/order/handler.go:99-111 | the transaction's step ends in 201 with the order appended, or in 500, which names an order only if one was appended |
| StockSafety.UpdateMoves | inventory-service/internal/inventory/store.go:47-86 | a write that returns a row moves exactly its delta on its own row and keeps the constraints; any other result moves nothing |
| StockSafety.AdvanceConserves | order-service/internal/inventoryclient/client.go:108-116 | every step of a request, faulty or late, takes from the stock exactly what it adds to that request's account |
| StockSafety.AdvanceKeepsRequest | order-service/internal/inventoryclient/client.go:92-134 | every step keeps the bound of commits, abandoned and open calls by attempts, and under the Unavailable assumption at most one commit |
| StockSafety.GotKeepsRequest | order-service/internal/inventoryclient/client.go:118-127 | learning an outcome keeps the same, whatever the code: success needs a commit, a retry needs that none can exist |
| StockSafety.FrontKeepsOk | inventory-service/internal/inventory/store.go:47-86 | no arrival, restock or request step breaks the balance of any item |
| EventSafety.PersistKeepsBackOk | order-service/internal/order/store.go:30-61 | an order transaction, whatever its fate, keeps the invariant of relays, stream and consumer |
| EventSafety.StoreKeepsSpacing | order-service/internal/events/publisher.go:64-72 | a copy is stored only a window after every earlier one |
| EventSafety.ReceiveKeepsStream | order-service/internal/events/publisher.go:73-86 | after a publish of a known row arrives, stored or dropped, in time or late, its id is in the stream and the dedup memory still covers the last window |
| EventSafety.PublishKeepsBackOk | order-service/internal/outbox/relay.go:62-65 | a publish with any fate, also one that is still under way when the relay gives up, of a possibly stale batch, keeps the invariant and loses no message |
| EventSafety.LandKeepsBackOk | order-service/internal/events/publisher.go:64-72 | an abandoned publish arriving at any later time keeps the invariant and loses no message |
| EventSafety.MarkKeepsBackOk | order-service/internal/outbox/relay.go:67-69 | marking, which comes only after an acknowledgement, never marks a row whose event is not in the stream |
| EventSafety.BackKeepsOk | order-service/internal/outbox/relay.go:37-71 | every step of relays, broker, clock and consumer keeps the invariant |
| EventAccounting.CopyLeavesMissing | order-service/internal/outbox/relay.go:83-84 | storing a copy takes exactly its own row off the missing ones, and only if it is the first copy |
| EventAccounting.DeliveriesSplit | analytics-service/internal/events/subscriber.go:81-100 | the stream's weight is that of unhandled messages plus all recordings minus the repeated ones |
| EventAccounting.BackKeepsFlow | order-service/internal/outbox/relay.go:52-71 | every step keeps orders plus second copies equal to missing rows plus messages |
| EventAccounting.BackKeepsLog | analytics-service/internal/events/subscriber.go:93-99 | every step keeps the recorded weight equal to what the per-message delivery counts say |
| EventAccounting.BackKeepsStats | analytics-service/internal/analytics/stats.go:37-46 | every step keeps the wrapping totals equal to the wrapped exact sums since the last start |
| Progress.BatchContract | order-service/internal/outbox/relay.go:52-71 | for every pattern of failures and timings one poll attempts the oldest unpublished rows in strictly increasing id order, newly marks exactly those whose publish was acknowledged and whose mark took effect, leaves every other row as it was, and every attempt that was sent is stored or still under way |
| Progress.AttemptAllRows | order-service/internal/outbox/relay.go:59-70 | the loop's effect on each row, independent of the order of the batch |
| Progress.AttemptAllStores | order-service/internal/outbox/relay.go:59-65 | the loop loses no message and no publish under way, and every attempt that was sent is stored or still under way |
| Progress.SteadyRound | order-service/internal/outbox/relay.go:59-70 | after a poll the healthy unpublished rows up to t are those before without the rows of the batch, and no bad one is new, whatever arrived and whatever became of bad and younger rows |
| Progress.BatchCovers | order-service/internal/outbox/store.go:28-50 | a batch holds every unpublished row up to t, or is full of such rows |
| Progress.RoundProgress | order-service/internal/outbox/relay.go:13-13 | with k bad rows up to t, one poll that fetches publishes all healthy rows up to t or at least 20-k of them |
| Progress.HealthyRowsArePublished | order-service/internal/outbox/relay.go:52-71 | with k < 20 bad rows up to t, all healthy rows up to t are published after ceil(count/(20-k)) polls whose fetch works, while younger rows keep arriving and fail or succeed at will |
| Progress.HealthyRowIsPublished | order-service/internal/outbox/relay.go:52-71 | so a given healthy row with r healthy rows below it is marked published after ceil((r+1)/(20-k)) such polls |
| Progress.StarvedRowIsNeverAttempted | order-service/internal/outbox/store.go:28-35 | with 20 or more rows below it that are never both published and marked, a row stays unpublished and in no batch at every poll, whichever fetches fail, whatever becomes of other rows, and whatever arrives |
| Liveness.InterleavedProgress | order-service/internal/outbox/relay.go:37-71 | from every reachable state: all healthy rows up to t are published once one relay has finished ceil(count/(20-k)) polls, with requests, other relays, broker, consumer and crashes interleaved between any two of its steps |
| Liveness.PollCounts | order-service/internal/outbox/relay.go:52-71 | a finished poll is a fetch of an idle relay, then no crash until it is idle again |
| Liveness.FetchAims | order-service/internal/outbox/store.go:28-50 | a fetch takes up all healthy rows up to t or at least 20-k of them |
| Liveness.PollGoesOn | order-service/internal/outbox/relay.go:59-70 | during a poll, under any other step, a healthy unpublished row is one the poll did not fetch or one it still has ahead |
| Liveness.InterleavedStarvation | order-service/internal/outbox/store.go:28-35 | from every reachable state in which a row has 20 older rows that no relay ever marks, and no relay holds it: it stays unpublished and no relay ever fetches it, in any interleaving |
| Relay.Relay.PublishPending | order-service/internal/outbox/relay.go:52-71 | the loop over the store and the publisher does to table and stream what the batch function says, for every pattern of faults and every time at which each publish and mark happens |
| Relay.Relay.Run | order-service/internal/outbox/relay.go:37-50 | polls at once and then once per round, at whatever times the ticks come, with arrivals of rows and of late publishes in between, until cancelled |
| Relay.RoundExactly | order-service/internal/outbox/relay.go:41-48 | a round is its poll, then the rows and the late publishes that come before the next |
| Relay.LandAllStores | order-service/internal/events/publisher.go:64-72 | late publishes that keep landing have all landed at last, each in the stream |
| Relay.Relay.PublishOne | order-service/internal/outbox/relay.go:73-85 | publishes the row under "outbox-" and its decimal id |
| Scenarios.PollIsRun | order-service/internal/outbox/relay.go:52-71 | what publishPending does is what a sequence of the state machine's own steps does, publishing each fetched row once, in order and in its own time |
| Requests.HandlerIsRun | order-service/internal/order/handler.go:44-112 | from any state, the handler with its retry loop, whatever faults its RPCs and its transaction meet, is a run of request steps with the same status, tables and stock and as many commits as its RPCs made |
| Requests.RpcsAreTruthful | inventory-service/internal/inventory/grpc_server.go:28-49 | the RPCs of such a run, served, lost or never sent, satisfy what AtMostOnce and StatusMeaning ask of them |
| Requests.CallIsAdvance | order-service/internal/inventoryclient/client.go:109-116 | one RPC, served and answered, answered in vain or never sent, is its steps: same table, same commit, same code |
| Scenarios.DoubleReservationHappens | order-service/internal/inventoryclient/client.go:82-90 | if Unavailable may follow an execution, one order answered 201 can take its quantity twice |
| Scenarios.OneOrderOutcome | order-service/internal/order/handler.go:99-111 | one request for each fate of the transaction: 500 leaves the stock taken, with or without an order, and a quantity beyond int32 can take a few items for an order that is never stored |
| Scenarios.SecondCopyHappens | order-service/internal/events/publisher.go:64-72 | in a run from one stocked item, a lost acknowledgement and a retry one window later store two copies |
| Scenarios.ManyCopiesHappen | order-service/internal/events/publisher.go:64-72 | for every n, a run from one stocked item with n copies of one row, one each window: the duplicate bound is reached for every number of copies |
| Scenarios.LateArrivalHappens | order-service/internal/events/publisher.go:64-72 | in a run from one stocked item, a publish that arrives a window late makes a second copy although both attempts were made at the same instant |
| Outbox.FetchIsOldestFirst | order-service/internal/outbox/store.go:28-50 | the batch is at most limit unpublished rows in strictly increasing id order; every unpublished row left out is younger than all of it, and only because it is full |
| Outbox.OutboxStore.MarkPublished | order-service/internal/outbox/store.go:52-57 | marks exactly the row with the id and leaves every other row, with or without its answer reaching the caller, or changes nothing |
| Outbox.OutboxStore.FetchUnpublished | order-service/internal/outbox/store.go:28-50 | the oldest unpublished rows, or an error; the table is not changed |
| Broker.Publisher.Publish | order-service/internal/events/publisher.go:73-86 | success means that a message with this id is in the stream, even when this publish was dropped as a repeat; after a failure it may be stored, still under way, or lost |
| Broker.JetStream.ReceiveLate | order-service/internal/events/publisher.go:64-72 | an abandoned publish arrives and is stored or dropped like any other |
| Relay.LandExactly | order-service/internal/events/publisher.go:64-72 | an abandoned publish that lands is stored with its own event at that time, or dropped as a repeat, and is no longer under way |
| MessageId.DecimalRoundTrip | order-service/internal/outbox/relay.go:83-84 | the decimal numeral of any integer reads back as that integer |
| MessageId.MsgIdInjective | order-service/internal/outbox/relay.go:83-84 | distinct rows have distinct message ids |
| MessageId.MsgIdForm | order-service/internal/outbox/relay.go:83-84 | the id is "outbox-", a minus sign for a negative row id, and digits without a leading zero |
| Retry.Do | order-service/internal/retry/retry.go:23-48 | between 1 and MaxAttempts calls, every call before the last failed retryably and its wait ended by the timer; nil exactly when the last call succeeded; a context error only after a retryable failure before the last attempt; OnRetry sees 1, 2, ... with the delay slept, once per wait begun; no call at all if MaxAttempts is not positive |
| Retry.TraceCharacterised | order-service/internal/retry/retry.go:23-48 | clause by clause: how many calls, when it succeeds, when it gives up, when a cancelled wait ends it, and what OnRetry sees |
| Retry.DoTraceUnique | order-service/internal/retry/retry.go:23-48 | that description determines result, calls and callbacks, so it is complete |
| Retry.WrappedResidue | order-service/internal/retry/retry.go:58-58 | what the wrapping multiplication leaves at attempt a is the low 64-a bits of the base times 2^a, read as signed |
| Retry.CapExactAt | order-service/internal/retry/retry.go:57-61 | at one attempt, including shifts of 63 and beyond, the computed cap is min(base*2^attempt, max) if and only if that attempt's zero bit does not alias |
| Retry.CapExact | order-service/internal/retry/retry.go:50-61 | at every attempt the computed cap is min(base*2^attempt, max), if and only if no zero bit of the base aliases |
| Retry.SmallProductIsWrapSafe | order-service/internal/retry/retry.go:57-61 | base*max below 2^63 is enough |
| Retry.CapCollapse | order-service/internal/retry/retry.go:57-61 | a base of 2^62+1 and a maximum of 5 give cap 5 and then 4 |
| Retry.CapsNeverDecrease | order-service/internal/retry/retry.go:50-56 | the schedule never falls if and only if no zero bit of the base aliases |
| Retry.BackoffDelay | order-service/internal/retry/retry.go:57-67 | the delay lies in the upper half of the cap and below the maximum, and the argument of the random draw is positive and fits int64 |
| Retry.JitterCoversUpperHalf | order-service/internal/retry/retry.go:50-56 | every delay in the upper half of the cap can be drawn |
| Retry.CapSumClosedForm | order-service/internal/retry/retry.go:57-61 | with j uncapped delays the first n caps sum to base*(2^j - 1) + (n - j)*max |
| Retry.SomeCappedFrom | order-service/internal/retry/retry.go:57-61 | every schedule has such a j |
| Retry.SleepBounds | order-service/internal/retry/retry.go:35-43 | the total slept lies between the sum of the half caps and the sum of the caps |
| Retry.ExhaustedRunBudget | order-service/internal/retry/retry.go:23-67 | an exhausted run sleeps before each attempt but the first, within those bounds and that closed form |
| InventoryClient.Reserve | order-service/internal/inventoryclient/client.go:92-134 | every RPC carries the sku and the int32 quantity; every one before the last answered Unavailable; the result is the last reply's item or the error its code stands for; an Unavailable is last only after six calls or a cancelled wait |
| InventoryClient.AtMostOnce | order-service/internal/inventoryclient/client.go:82-134 | under the Unavailable assumption at most one commit, only in the last RPC, exactly one on success, none on a missing item or too little stock |
| InventoryClient.CommitsWithoutAssumption | order-service/internal/inventoryclient/client.go:38-42 | without it at most six commits, and a success took stock once if and only if no Unavailable reply hid a commit |
| InventoryClient.ServerIsTruthful | inventory-service/internal/inventory/grpc_server.go:28-49 | whatever the database does, the reply's verdict agrees with what was committed, and the client's error mapping inverts the server's |
| InventoryClient.ProductionBudget | order-service/internal/inventoryclient/client.go:32-42 | the production backoff never aliases; an exhausted call makes six attempts and sleeps 3.05s to 6.1s |
| Inventory.VerdictAtUpdate | inventory-service/internal/inventory/store.go:47-67 | with any transactions between the UPDATE and the follow-up read: success means the stock sufficed at the UPDATE and only that row changed; a refusal means this call changed nothing and names the right reason if and only if the read works or the item exists |
| Inventory.ReserveExactly | inventory-service/internal/inventory/store.go:47-67 | for every table, quantity, fault and interference, in terms of the table alone: enough stock is taken and returned, too little is insufficient stock, no item is not found, and a fault is a database error, with the effect if the statement ran |
| Inventory.RestockExactly | inventory-service/internal/inventory/store.go:69-86 | in terms of the table alone: the quantity is added to any existing item whose column can hold the sum, a missing item is not found, and a fault is a database error, with the effect if the statement ran |
| Inventory.MissingItemCalledInsufficient | inventory-service/internal/inventory/store.go:56-61 | the wrong verdict at its input: no such item, and a follow-up read that fails |
| Inventory.UpdateAllKeepsRows | inventory-service/internal/db/schema.sql:1-5 | any mix of writes keeps 0 <= quantity <= 2^31-1 and adds and removes no row |
| Inventory.PostgresStore.ReserveStock | inventory-service/internal/inventory/store.go:47-67 | the two statements with their fault points and interference have the outcome that ReserveExactly describes |
| Inventory.PostgresStore.RestockItem | inventory-service/internal/inventory/store.go:69-86 | the restock statement with its faults has the outcome that RestockExactly describes |
| Inventory.GRPCServer.ReserveStock | inventory-service/internal/inventory/grpc_server.go:28-49 | an invalid request changes nothing; any other is answered from the store's outcome |
| Inventory.ReplyExactly | inventory-service/internal/inventory/grpc_server.go:33-48 | the reply in terms of the table alone: OK with the row's name and what is left, FailedPrecondition, NotFound, or Internal after a fault |
| Inventory.ReplyIsExact | inventory-service/internal/inventory/grpc_server.go:44-48 | a reply of OK carries the row as the UPDATE left it: narrowing to int32 loses nothing |
| Cache.CachedRefinesPlain | inventory-service/internal/inventory/caching_store.go:39-90 | for every sequence of non-overlapping operations with any Get and Set failures, expiries, evictions and undecodable entries, but working Del and no hidden store effect, every answer is the bare store's, or the true row where the bare store's read would fail |
| Cache.StepKeepsCoherence | inventory-service/internal/inventory/caching_store.go:20-25 | a step keeps every live entry equal to its row if and only if it is not an effective write that skips its invalidation under a live entry |
| Cache.WritesIgnoreCache | inventory-service/internal/inventory/caching_store.go:62-82 | for every cache content and fault the table and the answers of writes are those of the bare store |
| Cache.StepsAreOperations | inventory-service/internal/inventory/caching_store.go:39-82 | each step of such a sequence is the operation it stands for, with the cache and without |
| Cache.CachingStore.GetItem | inventory-service/internal/inventory/caching_store.go:39-60 | what GetExactly describes, and no other key is touched |
| Cache.GetExactly | inventory-service/internal/inventory/caching_store.go:39-60 | in terms of Redis and the table alone: a live entry is served; otherwise the row is, and a working Set leaves it under its key for 30 seconds; errors leave Redis alone |
| Cache.FillIsServed | inventory-service/internal/inventory/caching_store.go:42-57 | what one GetItem fills in another serves, for 30 seconds whatever the database does, and no longer |
| Cache.CachingStore.ReserveStock | inventory-service/internal/inventory/caching_store.go:62-71 | the bare store's outcome, and on success the item's entry deleted unless Del fails |
| Cache.CachingStore.RestockItem | inventory-service/internal/inventory/caching_store.go:73-82 | the bare store's outcome, and on success the item's entry deleted unless Del fails |
| Cache.CachingStore.Set | inventory-service/internal/inventory/caching_store.go:84-90 | the item under its key for 30s, or nothing if Redis fails |
| Cache.CacheKeyInjective | inventory-service/internal/inventory/caching_store.go:35-37 | distinct items have distinct keys |
| CacheRace.BoundedStaleness | inventory-service/internal/inventory/caching_store.go:39-90 | with every command and statement interleaved and any failing, each GetItem result was the row's true value at an earlier instant, and a hit is younger than 30s plus the read-to-Set time of its fill |
| CacheRace.ReadStepsExactly | inventory-service/internal/inventory/caching_store.go:39-90 | the steps of reads and of Redis one by one: what a hit serves, what a read keeps, what a fill stores and serves, and what a Del, an eviction and a corruption leave |
| CacheRace.StaleHit | inventory-service/internal/inventory/caching_store.go:20-25 | with no failure at all a hit after a reservation and its Del still shows the old row; the staleness bound is reached for every latency |
| CacheRace.OvertakingIsExact | inventory-service/internal/inventory/caching_store.go:20-25 | with overlap, a step keeps every hit outside a pending invalidation equal to its row if and only if it is none of three: an effective write without an answer under a live entry, the last pending Del failing over a differing entry, a Set of a row that has changed with no Del pending |
| CacheRace.FreshThroughout | inventory-service/internal/inventory/caching_store.go:20-25 | over a whole run hits are never stale, outside pending invalidations, if and only if no step is one of the three |
| CacheRace.FreshHitShowsRow | inventory-service/internal/inventory/caching_store.go:39-48 | then every such hit returns the row as it is |
| CacheRace.OutdatingIsExact | inventory-service/internal/inventory/caching_store.go:20-25 | taken literally: a step keeps every possible hit equal to its row if and only if it is neither an UPDATE that changes the row under a live entry nor a Set of a row that has changed |
| CacheRace.NeverStaleExactly | inventory-service/internal/inventory/caching_store.go:20-25 | over a whole run no hit could ever be stale if and only if no step is one of the two |
| CacheRace.TableIgnoresCache | inventory-service/internal/inventory/caching_store.go:62-82 | under every interleaving the table in all its versions and the answer of every write are what they would be without any cache |
| CacheRace.AnswersAreTheStores | inventory-service/internal/inventory/caching_store.go:62-82 | under every interleaving each write returned what the bare store's statements return on the version of the table they met, and the table is what the UPDATEs that ran make of it |
| Orders.PersistIsAtomic | order-service/internal/order/store.go:14-20 | both rows or neither, one-to-one correspondence and key uniqueness kept; reported success means both; the only silent success is an ambiguous commit; a stored quantity survives int32 unchanged |
| Orders.PersistExactly | order-service/internal/order/store.go:30-61 | with the keys spelt out: the transaction takes effect if and only if both ids are new, the quantity is a positive INTEGER and the commit goes through, and then it appends exactly the order and its event |
| Orders.OrderStore.CreateOrder | order-service/internal/order/store.go:30-61 | two inserts with rollback at every fault point have the outcome that PersistExactly describes |
| Orders.OrderStore.GetOrder | order-service/internal/order/store.go:63-77 | finds the order with the id, or reports that there is none, or that the read failed |
| Orders.Handler.CreateOrder | order-service/internal/order/handler.go:44-112 | 400 if and only if there is no body, no sku or no positive quantity; otherwise the RPCs carry the sku and the int32 quantity, and the status is 404, 409 or 502 by the last reply's code with nothing written, or 201 or 500 by the transaction |
| Orders.StatusMeaning | order-service/internal/order/handler.go:55-111 | under the Unavailable assumption: 201 is one reservation of the ordered quantity, one order and its event; 404 and 409 changed nothing; stock taken without an order is answered 500 or 502 |
| Analytics.Stats.Record | analytics-service/internal/analytics/stats.go:37-46 | both totals move by one order, in Go's int arithmetic |
| Analytics.Stats.TakeSnapshot | analytics-service/internal/analytics/stats.go:48-56 | both totals, unchanged |
| Analytics.Subscriber.OnMessage | analytics-service/internal/events/subscriber.go:81-100 | a payload that does not decode, and an event whose handler fails, are refused and change nothing; any other is recorded once and acked |
| Common.Int32 | order-service/internal/inventoryclient/client.go:111-114 | int32 conversion: congruent modulo 2^32, in range, the identity on int32 values |

## Left out

- Methods run one at a time on their objects; overlapping operations are covered by `Protocol` and `CacheRace`, on values, and the mutex of `Stats` is taken as making `Record` atomic.
- Clock, random draw, UUID and BIGSERIAL value are arguments. Row ids are any unused integers, so commits out of id order are covered; running out of ids at 2^63 is not modelled.
- Message and cache encodings: events and items are records; a cache entry or delivery may be undecodable. Encoding failures of json.Marshal are not modelled, since these records always encode.
- Columns and fields that no proved property depends on: status, created_at, subject, trace_parent.
- A statement or commit that takes effect only after its caller has moved on, and a handler that fails after it has recorded.
- That the broker eventually delivers and acks: only what holds whenever it does, and how many polls the relay needs.
- Wiring and I/O: main functions, shutdown, configuration, health endpoints, JSON writing, logging, Prometheus counters, tracing, TLS.
- The REST endpoints of inventory-service and `GET /orders/{id}` (thin adapters), api-gateway (a reverse proxy) and notification-service (the same consumer without state).
- Generated gRPC code, and the insides of Postgres, Redis and NATS, beyond the assumptions above.
