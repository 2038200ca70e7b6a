# Inventory reservations: a verified model

This project models the reservation engine of an inventory service, and its rate limiter, and proves
what the service promises about stock, statuses, orders and provider calls.

A reservation holds stock on inventory rows until it is confirmed into an order, cancelled, or expired by a
sweep. Every row has two counters, `qtyAvailable` and `qtyReserved`. Rows belong to internal providers, whose
stock is the row itself, or to external ones, which are asked over the network to hold, confirm and release.

| file | what it holds |
|---|---|
| Tables.dfy | the tables as values; exceptions as `Tx` results |
| Schemas.dfy, Queries.dfy | the request schema and the repository queries |
| Transactions.dfy | each operation as a function from a database to a database or an exception |
| Operations.dfy | the five requests; an exception leaves the committed database unchanged |
| Services.dfy | the services as they run: classes, loops over a session's uncommitted tables, commit and rollback |
| Ledger.dfy, Settlement.dfy, Booking.dfy, Steps.dfy | the invariant, step by step and request by request |
| Runs.dfy | what holds in every state that any sequence of requests reaches |
| Calls.dfy | the settling calls that really go out to providers, also those of transactions that are rolled back |
| Promises.dfy | what a caller of `create` may count on, and what goes wrong on internal rows |
| Sweeps.dfy | sweeps that run side by side, and draining the backlog |
| Closers.dfy, Sweepers.dfy | `confirm`, `cancel` and sweeps in flight, item by item, and their commits |
| Interleaving.dfy | `create`, `confirm`, `cancel` and sweep transactions interleaved at row locks, and exactly when they are serializable |
| Progress.dfy | every request that would succeed alone gets through step by step, and one that raises, raises |
| Races.dfy | an execution that is not serializable |
| Overlaps.dfy | the settling calls of interleaved transactions, those of rolled-back ones included |
| RateLimit.dfy | the sliding-window limiter |

The shape of the argument: an item's quantity is live, freed or taken. One ledger equation per row, over items,
is kept by every single step of a settling transaction, even between its items. Together with the agreement of
item and reservation statuses it gives the ledger over reservations. It also determines the counters and the
provider calls from the reservations alone, which is why sweeps commute. Interleaved transactions are shown to
commit exactly what they would do alone, at the moment of their commit, unless somebody else has closed the
reservation behind the back of a `confirm` or `cancel`; short of that, everything proved about serial runs holds for
them too.

Inputs of the model: the clock, the answers of the providers, what an unlocked read returns, and which expired
reservations a sweep's query picks. All are arbitrary within what the code allows.

Assumptions: a locked read returns the current committed row, as the code relies on
(app/services/reservation_service.py:43 and 68); each operation of `Runs.dfy` is one atomic transaction; an
update of a reservation's row waits for whoever has locked it; ids are positions in their tables.

There are two accounts of settling calls. `Db.calls` has the calls on adapters that committed transactions made,
whether or not the adapter sent a request: a missing capability, a refused connection or a timeout while connecting
stops it, and the code ignores that on every release and, for a timeout, on a confirmation. `Session.sent`,
`Calls.dfy` and `Overlaps.dfy` have the calls whose requests went out, which no rollback takes back; which of them
go out is an input. `Calls.CallsReallyMade` says exactly how far the two differ.

Where code and documentation disagree, the model follows the code:

- README.md:159 says `qty_reserved` is what pending reservations lock. `create` and the internal adapter both
  count a hold on an internal row, and only one count is ever taken back. `Runs.DocumentedMeaning` says exactly
  when the documented meaning holds; `Promises.InternalHoldLeaks` and `Promises.InternalRefusesLastUnits` give inputs
  for which it, and the promise that free stock can be reserved, fail.
- ARCHITECTURE.md:156 says a failing `confirm_hold` is never fatal. The code catches only timeouts and
  unavailability; any other exception, such as a missing capability or a refused connection, rolls the
  confirmation back (app/services/reservation_service.py:183-186). `Calls.HalfConfirmed` is such a run: the holds
  before the failing one stay confirmed at the provider, and a later cancellation releases one of them.
  `Calls.RaisingIsHarmless` says exactly for which reservations this cannot happen.
- README.md:30 promises that concurrent requests cannot oversell. `confirm` and `cancel` read their reservation
  without a lock, so a sweep or another cancellation can close it before they lock their rows, and the units are
  taken off the reserved ones twice. `Races.SweptWhileConfirming` is such an execution; `Interleaving.InterleavingIsSerial`
  says that nothing else goes wrong.
- A cancelled or expired reservation may keep its hold at the provider: `Calls.CancelledUnreleased` is such a run.
- The limiter's window is a true sliding window over admitted requests, not a fixed one as its first lines
  suggest (app/core/rate_limit.py:3).

## Model

| member | source | states |
|---|---|---|
| Schemas.NoDuplicatesMeansDistinct | app/schemas/reservation.py:25-33 | comparing the number of ids with the number of different ids accepts exactly the requests whose products are pairwise distinct |
| Schemas.AcceptedRequests | app/schemas/reservation.py:15-33 | exactly the requests with 1 to 50 lines, positive product ids, 1 to 1000 units each and no product twice are accepted |
| Queries.GetBestAvailable | app/repositories/inventory_repository.py:20-30 | no row exactly when the product has none; otherwise a row of the product whose effective stock no other row of it exceeds |
| Queries.GetExpiredPending | app/repositories/reservation_repository.py:25-37 | distinct, unlocked, pending and past expiry, and as many of them as the limit admits |
| Queries.GetAllByProvider | app/repositories/inventory_repository.py:40-44 | exactly the provider's rows, each once, in id order |
| Queries.HasOrderCounts | app/repositories/order_repository.py:12-16 | the lookup by reservation id finds an order exactly when the count of orders of that reservation is positive |
| Services.InternalProviderAdapter.HoldStock | app/providers/internal.py:17-24 | holds exactly when the effective stock suffices, and then reserves the quantity on the row and changes nothing else |
| Services.ReservationService.Create | app/services/reservation_service.py:38-136 | the loops leave the session's tables as `CreateTx` says on the best rows, and return the new id, or raise its exception |
| Services.ReservationService.Confirm | app/services/reservation_service.py:144-200 | the loop leaves the session's tables as `ConfirmTx` says and returns the new order, or raises its exception; either way the calls of `ConfirmTxSends` have gone out, and no others |
| Services.ReservationService.Cancel | app/services/reservation_service.py:202-223 | leaves the session's tables as `CancelTx` says, or raises its exception; the release calls that their adapters could send have gone out |
| Services.ReservationService.ReleaseItems | app/services/reservation_service.py:236-260 | the loop leaves the session's tables as `ReleaseFrom` says, or raises its exception, whether or not a release call could be sent; those that could have gone out |
| Services.ReservationService.ExpireBatch | app/services/reservation_service.py:225-234 | the loop leaves the session's tables as `SweepTx` says on the batch its query picked, and returns the batch's size; the release calls that could be sent have gone out |
| Services.InventoryService.SyncFromProvider | app/services/inventory_service.py:34-68 | the loop leaves the session's tables as `SyncTx` says, and returns its report |
| Services.EndRequest | app/db/session.py:33-42 | commits the session's tables when the request returned, restores the committed ones when it raised; the calls sent stay sent |
| Services.PostReservation | app/db/session.py:33-42 | a `create` request commits its booked state, or leaves the committed tables unchanged and reports the exception; where remote providers accept or time out, it succeeds exactly when every product is in stock and no internal row picked has less than twice the quantity |
| Services.PostConfirm | app/api/v1/routers/reservation_router.py:32-39 | a `confirm` request commits its state and returns the order, or leaves the committed tables unchanged and reports the exception; the calls it made have gone out in both cases |
| Services.RunExpirySweep | app/workers/expiry_worker.py:17-32 | the job commits a sweep of at most 100 reservations, or leaves the committed tables unchanged |
| Ledger.LiveItemIsReserved | app/services/reservation_service.py:244-248 | a row has at least the quantity of any live item on it reserved, so the clamp at zero clamps nothing |
| Ledger.SettlingKeepsLedger | app/services/reservation_service.py:171-188 | settling any one item keeps every row's ledger equation, and stock plus sold quantity of every row |
| Ledger.SettlingKeepsCalls | app/services/reservation_service.py:177-188 | settling one item keeps the account of provider calls exact: one for each settled remote hold, none else |
| Ledger.ReleaseItemSettles | app/services/reservation_service.py:236-260 | releasing a live item never raises, takes exactly its quantity off its row, makes the one call a remote hold needs, and keeps the books |
| Ledger.ConfirmItemSettles | app/services/reservation_service.py:171-188 | confirming a live item raises exactly when its remote hold's confirmation does, and otherwise takes its quantity off both counters and keeps the books |
| Ledger.LoopsOnAnyDatabase | app/services/reservation_service.py:237-260 | on any database, in order or not: a release skips settled items, an item whose row is gone touches no row, and a remote hold without an external provider ends the request |
| Settlement.BooksDetermineCounters | app/models/inventory.py:29-30 | two states with the same books, reservations, orders and stock history have the same counters and calls |
| Settlement.CloseEffect | app/services/reservation_service.py:222-223 | cancelling or expiring a pending reservation never raises, releases all its items, records the status, and keeps the invariant |
| Settlement.CancelEffect | app/services/reservation_service.py:202-223 | every outcome of `cancel`: not found for an unknown id, a state error for a confirmed reservation, nothing at all for a cancelled or expired one, and the closed reservation with the invariant for a pending one |
| Settlement.ConfirmEffect | app/services/reservation_service.py:151-200 | every outcome of `confirm`: which exception, or the confirmed record, the one new order, and the invariant |
| Settlement.ConfirmRefuses | app/services/reservation_service.py:152-169 | on any database, `confirm` refuses an unknown, a no longer pending or expired, and an already ordered reservation, each with its own exception and in this order |
| Settlement.SweepEffect | app/services/reservation_service.py:225-234 | a sweep of pending reservations never raises and expires exactly its batch |
| Booking.HoldItemEffect | app/services/reservation_service.py:113-130 | a line's hold succeeds exactly when its provider grants it, and stores one item; an internal row is reserved once more |
| Booking.CreateEffect | app/services/reservation_service.py:52-136 | `create` succeeds exactly when every line fits, an internal row needing the quantity twice, and then each chosen row is reserved by its weight times its quantity, one pending reservation is added, and nothing else changes |
| Steps.CreateKeepsInv | app/services/reservation_service.py:85-136 | a committed `create` keeps the invariant |
| Steps.SyncOutcome | app/services/inventory_service.py:34-68 | every outcome of a sync: unknown provider, inactive provider, nothing to do for an internal one; a provider error on a row is reported and the other rows are synced; any other exception ends it. Exactly the provider's rows whose product has a non-empty SKU and that got an answer are overwritten |
| Steps.SyncReports | app/services/inventory_service.py:50-68 | the report counts the overwritten rows and has the message of each row whose provider failed, with its SKU, in id order |
| Steps.ApplyKeepsInv | app/services/reservation_service.py:38-260 | every request keeps the invariant, whatever the clock and the providers do |
| Runs.RunKeepsInv | app/services/reservation_service.py:38-260 | the invariant holds in every state of every run |
| Runs.RecordsAreFinal | README.md:295-300 | a reservation's record never changes, except that it leaves `pending` at most once; no final status is left |
| Runs.StatusCoherence | app/services/reservation_service.py:89-136 | pending: items held or failed, no order; confirmed: items confirmed, exactly one order, with its user; cancelled or expired: items released, no order |
| Runs.CallDiscipline | app/services/reservation_service.py:177-188 | in committed transactions, a hold reference gets no settling call on its adapter while pending and exactly one afterwards, of the right kind; failed items and items without a reference get none |
| Runs.ReservedLedger | README.md:157-162 | an external row's reserved units are its initial ones plus those of pending reservations; an internal row has those of pending ones twice and those of all others once |
| Runs.DocumentedMeaning | README.md:159 | reserved units equal those of pending reservations exactly when the row is external or nothing was ever reserved on it |
| Runs.CountersStaySound | README.md:30 | without syncs of the row, 0 <= reserved <= available in every state; reserved is never negative, syncs or not |
| Runs.InternalRowsStaySound | app/services/inventory_service.py:47-48 | internal rows are never synced, so one that starts with 0 <= reserved <= available keeps it in every run |
| Runs.StockIsConserved | app/services/inventory_service.py:59-62 | available stock is the last synced or initial figure minus exactly what was confirmed since |
| Runs.NothingSoldTwice | app/services/reservation_service.py:171-175 | without syncs, confirmed plus pending quantity never exceeds the initial stock |
| Runs.DeadGuards | app/services/reservation_service.py:165-169 | in reachable states no duplicate order, taken key or row-less adapter is ever met, the sweep never raises, cancel raises only for unknown or confirmed reservations, and the clamp and the skip never act |
| Runs.ClosersClose | app/services/reservation_service.py:202-234 | a pending reservation is closed by its committed confirmation, its cancellation, and any sweep whose batch has it; every other request leaves its record alone |
| Runs.SweepDelta | app/services/reservation_service.py:225-260 | a sweep lowers the reserved units of each row by exactly what its whole batch holds there, and touches no stock |
| Runs.CloserDelta | app/services/reservation_service.py:171-175 | what any closing request does to both counters of a row |
| Runs.RoundTrip | app/services/reservation_service.py:222-234 | create then confirm, cancel or expire, also in a batch, with anything in between: external counters change only as the requests in between and the rest of the batch changed them, but for the stock a confirmation sells; an internal row keeps the quantity reserved |
| Runs.ConfirmableOrSweepable | app/repositories/reservation_repository.py:29-32 | at any instant a pending reservation passes exactly one of the tests of `confirm` and of the sweep |
| Runs.ClosedInTime | app/services/reservation_service.py:155-163 | nothing is confirmed after its expiry, nothing is swept before it |
| Runs.ExpiryIsFinal | app/services/reservation_service.py:160-163 | with a clock that does not go back, once the time has passed the expiry no unconfirmed reservation is ever confirmed |
| Calls.CommitKeepsCalls | app/services/reservation_service.py:177-188 | the calls of a committing request that go out are exactly those it adds to the committed account and that its adapters could send |
| Calls.ConfirmationsThatGoOut | app/providers/external_http.py:89-103 | of a remotely held item one confirmation goes out after an answer, an error answer, and a timeout or another exception after sending; none after a timeout or an exception before |
| Calls.ClosedAtCloses | app/services/reservation_service.py:202-234 | every closed reservation has the one request that closed it, as its status says |
| Calls.CallsReallyMade | app/services/reservation_service.py:171-188 | over a run, rolled-back requests included: a release went out at most once, and exactly once if and only if the reservation was cancelled or expired and that request's release could be sent; a confirmation went out once if it was confirmed and that could be sent, plus once for every confirmation that raised after this item's call had gone out |
| Calls.RaisingIsHarmless | app/services/reservation_service.py:183-186 | a raising `confirm` leaves no call behind, whatever the answers, exactly when the reservation has no hold reference; and exactly when it has at most one, if exceptions come before their calls go out |
| Calls.HalfConfirmed | app/services/reservation_service.py:177-186 | a run in which one hold is confirmed by a confirmation that is rolled back, and then released by a cancellation |
| Calls.CancelledUnreleased | app/services/reservation_service.py:255-260 | a run in which a release raises before it is sent: the cancellation succeeds, the item is marked released, and nothing has gone out |
| Promises.BestCreateComplete | app/repositories/inventory_repository.py:20-30 | the same completeness for the reads that the service's own query makes |
| Promises.CreateComplete | app/repositories/inventory_repository.py:20-30 | a `create` alone succeeds exactly when every product is in stock and no internal row it picked has less than twice the quantity |
| Promises.CreateCompleteOnExternalRows | app/services/reservation_service.py:52-87 | on external rows a `create` alone succeeds exactly when every product has a row with enough stock |
| Promises.RefusalNamesLine | app/services/reservation_service.py:54-126 | a refused `create` raises the exception of the first line that fails the first phase that any line fails: the unlocked reads, the locked rows, or the providers |
| Promises.ItemsTellAnswers | app/services/reservation_service.py:100-132 | each stored item says how its provider answered: held with or without a reference, or failed with the message; there is none after a refusal or another exception |
| Promises.HoldsFailOpen | app/services/reservation_service.py:127-130 | a remote timeout or unavailability changes only that item's status, reference and message: same success, same rows, same other items |
| Promises.InternalRefusesLastUnits | app/providers/internal.py:17-24 | inputs with free internal stock that `create` refuses |
| Promises.InternalHoldLeaks | app/providers/internal.py:17-27 | inputs for which create and cancel leave an internal row reserved for nobody |
| Sweeps.SweepsCommute | app/services/reservation_service.py:225-260 | sweeps of disjoint batches give the same database in either order, and as one sweep of both |
| Sweeps.BatchOrderIsIrrelevant | app/services/reservation_service.py:230-233 | sweeping the same reservations in any order gives the same database |
| Sweeps.ConcurrentSweeps | app/repositories/reservation_repository.py:25-37 | two batches picked under SKIP LOCKED are disjoint and both pending, so that swept one after the other, in either order, they give one database and raise nothing; their interleaving item by item is `Interleaving.OverlappingSweeps` |
| Sweepers.CommitSweepIsAtomic | app/services/reservation_service.py:225-260 | a sweep that has released its items one by one on rows it locked commits exactly what it would do alone at its commit |
| Sweeps.SweepsDrain | app/services/reservation_service.py:225-234 | after m sweeps at one instant, m times the limit of expired reservations are gone, or all |
| Sweeps.DrainTime | app/workers/expiry_worker.py:17-32 | the backlog of N is gone after ceil(N / limit) sweeps and not before |
| Interleaving.CommitCreateIsAtomic | app/services/reservation_service.py:68-136 | a `create` holding its row locks commits exactly what it would do alone at its commit, however stale its first reads |
| Closers.CommitIsAtomic | app/services/reservation_service.py:151-223 | a `confirm` or `cancel` that has settled all its items commits what it would do alone at its commit, exactly when nobody else has closed the reservation since its read, or it is a second cancellation with nothing left to take |
| Closers.CommitWrites | app/services/reservation_service.py:171-175 | what a `confirm` or `cancel` commits to each row, overtaken or not: off both counters, or off the reserved units but not below zero; all other rows are left alone |
| Closers.RepeatsWriteNothing | app/services/reservation_service.py:206-223 | an overtaken cancellation writes nothing exactly when the reservation is cancelled already, its rows have nothing reserved and its items no remote hold |
| Interleaving.InterleavingIsSerial | app/repositories/inventory_repository.py:32-38 | all committed databases of an execution are those of running the committed requests alone in commit order, exactly as long as no `confirm` or `cancel` commits after somebody else has closed its reservation |
| Progress.EveryRequestGetsThrough | app/services/reservation_service.py:38-260 | the converse: in any state in order, an idle transaction can take every request that would succeed alone and commit exactly what it would commit alone, if nobody else has locked a row that it changes |
| Progress.ExecutionGoesOn | app/db/session.py:33-42 | so every execution so far serial can go on with any such request |
| Progress.RaisingConfirmEnds | app/services/reservation_service.py:177-186 | a confirmation that would raise alone raises step by step, too: it commits nothing, and has sent exactly the calls it would have sent alone |
| Progress.AnyoneMayRollBack | app/db/session.py:38-40 | a running transaction can end at any point without a trace in the committed tables |
| Races.SweptWhileConfirming | app/services/reservation_service.py:151-175 | an execution in which a sweep overtakes a `confirm`: both commit, and the row is left with its reserved units below zero by what was sold |
| Interleaving.OverlappingSweeps | app/repositories/reservation_repository.py:25-37 | sweeps whose items interleave in any way on shared rows leave the database that one sweep of all their reservations leaves, in whatever order |
| Interleaving.InterleavingNeverOversells | README.md:30 | every committed row that started with 0 <= reserved <= available keeps it under every interleaving in which no `confirm` or `cancel` commits after somebody else has closed its reservation |
| Interleaving.ConfirmedAtMostOnce | app/models/order.py:27-29 | of overlapping confirms of one reservation at most one commits, in any execution at all |
| Interleaving.CommittedConfirmConsumesOnce | app/services/reservation_service.py:171-200 | a committed confirm finds no order and leaves exactly one, and takes each row's quantity off both counters once |
| Overlaps.CallsUnderInterleaving | app/services/reservation_service.py:171-198 | under interleaving, a settling call has gone out once if it has settled its item and could be sent, and besides once for every overlapping transaction that sent it and was rolled back, be it by that call's own exception, or has not ended |
| RateLimit.RateLimiter.Call | app/core/rate_limit.py:33-51 | the verdict on the key's remembered times, the exact table afterwards, and nothing at all when disabled |
| RateLimit.KeysAreIndependent | app/core/rate_limit.py:36-41 | what is remembered for a key depends on that key's requests alone |
| RateLimit.PrunedListDecides | app/core/rate_limit.py:41-51 | the pruned list decides every later request as the full history of admitted requests would |
| RateLimit.StoredIsSmall | app/core/rate_limit.py:41-51 | the remembered list stays sorted and never has more than `times` elements |
| RateLimit.LimiterKeepsBound | app/core/rate_limit.py:38-51 | at most `times` admitted requests lie in any half-open interval of `seconds`, open on either side |
| RateLimit.GreedyIsOptimal | app/core/rate_limit.py:38-51 | after every prefix, at least as many requests are admitted as by any other choice that keeps the bound |
| RateLimit.AllowingNothingIsNotOptimal | app/core/rate_limit.py:28-30 | the exception: zero requests in windows of no length |
| RateLimit.NothingAllowedRaises | app/core/rate_limit.py:41-43 | a limiter that allows nothing remembers nothing, and every request to it ends in an index error |
| RateLimit.TruncateDropsFraction | app/core/rate_limit.py:43 | the advice is rounded toward zero, on either side of it |
| RateLimit.RetryAfterIsTight | app/core/rate_limit.py:42-48 | a refused caller is admitted later exactly when it waited out the remaining time; the advice suffices, is at least one second and at most one second too long |

## Left out

- Queries.GetBestAvailable: takes the first of several best rows, where the database leaves the choice open; the lemmas about `create` hold for every choice.
- Services.ReservationService.Create: rows, reservations and items are values in tables that the session reassigns, not objects, so sharing of one row object by service and adapter is modelled by the row's id.
- Services.RunExpirySweep: the scheduler, its interval and its log lines are not modelled.
- Interleaving.InterleavingNeverOversells: not for executions in which a `confirm` or `cancel` is overtaken, where it fails (`Races.SweptWhileConfirming`).
- Overlaps.CallsUnderInterleaving: only for executions without such a commit, too.
- Stock sync against running transactions: sync takes no lock, so it is only an atomic request.
- Deadlock freedom and progress: rows are locked in request order, and nothing is promised.
- The remote warehouse's own table of holds, including holds left behind by a rollback.
- HTTP, JSON, authentication headers and time limits of the external adapter; only its possible outcomes remain.
- The object-relational mapper's caching and flushing, isolation levels, and integer width of columns.
- Gaps in automatic ids after a rollback, and creation and update timestamps.
- The length limits of the user id, response envelopes, exception-to-status mapping, logging, users and tokens.
- The availability listing, reading single reservations and orders, and pagination: they would only add easy members.
- Deletion of products or inventory rows, which no modelled operation does.
