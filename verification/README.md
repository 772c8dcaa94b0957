# HFT exchange: matching engine, market and wire codec

A model of the exchange simulator's server core and of the byte formats it shares with its client
and its subscriber, with proofs of what they guarantee.

* **The matching engine in memory.** `KillFlagTable` (open addressing with tombstones), `PriceBitmap`
  (two levels of 64-bit words), `OrderPool` (one slab of nodes carrying the free list and every
  level's queue), `BookSide`, `RestingOrders` and `OrderBook` are classes over arrays that are updated
  in place. Each is proved to hold a simple value: a map, a set, sequences, and for the whole book a
  `LazyBooks.State`. Every method of `OrderBook` says which function of the old value the new one is.
* **The engine as a value.** `LazyBooks` is that value and those functions: cancelling sets a flag, a
  flagged order leaves when it reaches the front, slots are prices modulo 65536.
* **The reference.** `EagerBooks` is a price-time book that cancels at once and lets an incoming order
  sweep the other side. `Refinement` and `Runs` prove that the engine behaves like it on every run;
  `PriceWindows` proves for exactly which prices.
* **Consequences over whole runs.** `OneRequest`, `Draining`, `Ledger`, `Cancellation`, `Reports`,
  `Provenance`, `FlagKeys`, `SnapshotRuns`.
* **The market.** `Markets` is a transition system of shards, queues and threads in any interleaving,
  of which `MarketProgress` says that nothing submitted is lost;
  `Intake` is what the server lets in; `MarketRuns` carries the theorems to every book.
* **The wire.** `Bytes`, `Fields`, `RequestCodec`, `ResponseCodec`, `MessageCodec`, `SnapshotCodec`: writers and
  readers as loops over bytes, round trips with the exact conditions under which they hold.

A session registry lookup is an oracle: a book numbers its lookups, and a set of numbers says which
of them find their session connected. Messages written to sessions form the `outbox`.

Words of the bitmap are numbers below 2^64 with their bits defined by division; `h & mask` is the
bitwise and of the table's mask.

## Where code and documentation differ

The model follows the code.

* README.md:95 promises the top price levels per side; a snapshot holds the top orders
  (server/include/order_book.hpp:396-423). The comment at server/include/conversions.hpp:117-118 says
  24 bytes an order; with four-byte fields it is 12.
* README.md speaks of sorted maps (line 94) and of a sliding window (line 2). Slots are the price modulo
  65536 and nothing slides: the code ranks by price slot
  (server/include/order_book.hpp:426), which agrees with price order only under the condition of
  `PriceWindows.ExactCondition`; `Intake.ServerPricesNotOrdered` shows that the server does not
  enforce it.
* README.md places a request's symbol at offset 2; a KILL carries no side and has its symbol at
  offset 1 (server/include/conversions.hpp:31-41).
* A second KILL of an order that is cancelled but not yet removed is silently accepted
  (server/include/order_book.hpp:338-345), and a MODIFY enters its new order even when the order it
  names is unknown (server/include/order_book.hpp:348-353).
* A filled order of a disconnected session keeps its flag (server/include/order_book.hpp:356-360), so
  resting ids are in general only among the table's keys (`Runs.RunInv`); `FlagKeys.TableKeys`
  says exactly which others there are.

## Model

| member | source | states |
|---|---|---|
| Runs.LazyRefinesEager | server/include/order_book.hpp:325-456 | over every run of requests at prices whose slots keep their order, the resting orders without the cancelled ones, and the list of trades, equal those of a price-time book that cancels at once |
| PriceWindows.ExactCondition | server/include/order_book.hpp:426 | the engine is a price-time book on all runs over a set of prices, and is uncrossed after all of them, if and only if price slots order those prices as their values do |
| PriceWindows.OneWindowPreservesOrder | server/include/order_book.hpp:426 | prices inside one aligned window of 65536 ticks meet that condition |
| PriceWindows.HiddenBid | server/include/order_book.hpp:369-394 | a failing run: two bids whose slots are not in price order hide the better one, an ask at its price does not trade, and the book stays crossed |
| PriceWindows.HiddenEagerly | server/include/order_book.hpp:369-394 | the price-time book trades on that run |
| Requests.RunBook | server/include/order_book.hpp:508-528 | a book in memory fed any requests ends in the state of the run of those it carried out, so every theorem about runs holds of it; it stops short only at a request placing an order while ORDER_POOL_MAX_CAP orders rest |
| Requests.ProcessOne | server/include/order_book.hpp:508-540 | one request on the book in memory moves its value as Process does, and yields the snapshot every SNAPSHOT_FREQUENCY requests |
| Requests.MemoryIsPriceTimeBook | server/include/order_book.hpp:316-464 | the queues in memory, without flagged orders, are the two sides of the price-time book of the same requests, at prices whose slots keep their order |
| Requests.RestingAtMostPlaced | server/include/order_book.hpp:77-79 | no more orders rest after a run than it placed, so the pool cannot be exhausted before ORDER_POOL_MAX_CAP orders were placed |
| MarketRuns.MarketIsPriceTime | server/include/order_book.hpp:485-528 | in every interleaving of submissions and drains, each listed symbol's book, at prices whose slots keep their order, is the price-time book of its own processed requests, at rest, with seq_len counting them |
| EagerBooks.MatchIsSweep | server/include/order_book.hpp:369-394 | entering an order and then matching front against front until nothing crosses equals sweeping the other side with it and resting the remainder |
| EagerBooks.SweepConsumesPrefix | server/include/order_book.hpp:384-392 | a sweep takes the other side from the front, every order but the last one whole, and leaves the rest untouched |
| EagerBooks.SweepTotal | server/include/order_book.hpp:382-392 | a sweep fills the smaller of its quantity and the quantity resting at prices it reaches |
| Refinement.UpdateRefines | server/include/order_book.hpp:369-394 | draining and matching with cancelled orders in the way trades exactly as matching live orders alone, and leaves the book at rest |
| Refinement.DrainRefines | server/include/order_book.hpp:440-456 | draining changes neither live orders nor trades and leaves a live front |
| Draining.DrainRemoves | server/include/order_book.hpp:440-456 | draining a side removes exactly the cancelled orders at its front, from the front on, each entered among the removals in that order, and leaves the other side's cancelled front as it was |
| Draining.DrainBothRemoves | server/include/order_book.hpp:371-372 | before each look at the fronts first the cancelled bids at the front leave, then the cancelled asks |
| Refinement.EvictRefines | server/include/order_book.hpp:449-454 | removing a cancelled front keeps the live book and the invariant |
| Refinement.TradeDoes | server/include/order_book.hpp:384-392 | both fronts lose the same quantity, a filled one leaves, one trade at the ask's price is added, and only flags of filled orders can go |
| Refinement.TradeRefines | server/include/order_book.hpp:384-392 | a trade of live fronts is the trade of the price-time book's fronts and keeps the invariant |
| Refinement.LiveInsert | server/include/order_book.hpp:428-436 | inserting by slot among cancelled orders is inserting by price among the live ones |
| Refinement.LiveKill | server/include/order_book.hpp:345 | setting a flag takes exactly that order out of the live book |
| Refinement.LiveUncrossed | server/include/order_book.hpp:382 | if the fronts do not cross, no live orders cross |
| Refinement.CancelRefines | server/include/order_book.hpp:336-346 | KILL is the price-time book's immediate cancellation, unknown and reserved ids included |
| Refinement.PlaceRefines | server/include/order_book.hpp:325-334 | SEND enters the order into the live book in price-time order |
| Refinement.ApplyRefines | server/include/order_book.hpp:520-528 | each kind of request followed by matching is the price-time book's execution of it |
| Refinement.ProcessKeepsInv | server/include/order_book.hpp:508-528 | whatever the prices, each request keeps the invariant (sides sorted by slot, distinct ids, positive quantities, resting ids among the flags) and leaves the book at rest |
| Refinement.ProcessRefines | server/include/order_book.hpp:508-528 | each request at prices whose slots keep their order moves live book and trades as the price-time book does |
| LazyBooks.DrainDeadShrinks | server/include/order_book.hpp:440-456 | draining one side never grows it and does not touch the other |
| LazyBooks.UpdateKeeps | server/include/order_book.hpp:369-394 | what every removal of a cancelled front and every trade of live, crossing fronts keeps, the whole update keeps |
| Runs.RunInv | server/include/order_book.hpp:316-464 | the invariant and the rest condition hold after every run, and flags name only placed orders |
| Runs.NoRestingCross | server/include/order_book.hpp:382 | after every run at prices whose slots keep their order, each resting bid is strictly below each resting ask |
| Runs.UpdateAtRest | server/include/order_book.hpp:369-394 | updating a book at rest changes nothing |
| OneRequest.PlacingClosedForm | server/include/order_book.hpp:508-528 | SEND or MODIFY on a reachable book at prices whose slots keep their order: every fill has the new order on one side, live opposing orders are consumed as a price-time prefix, the total is min(quantity, crossing quantity), the remainder rests |
| OneRequest.CancelClosedForm | server/include/order_book.hpp:336-346 | KILL trades nothing and removes exactly the named order from the live book |
| FlagKeys.TableKeys | server/include/order_book.hpp:355-364 | after any run the flag table's keys are exactly the resting ids and the ids of filled orders whose session was not connected when the fill was to be reported |
| FlagKeys.FlagsOfResting | server/include/order_book.hpp:355-364 | when every session stays connected, the flag table's keys are exactly the resting ids |
| FlagKeys.CancelAnswered | server/include/order_book.hpp:336-346 | after any run a KILL raises the flag of the order it names exactly if that order rests, cancelled already or not, or was filled without being told; otherwise, and so whenever it was never placed, it gets INVALID_ORDER_ID |
| Ledger.Conservation | server/include/order_book.hpp:384-392 | after every run, for each id: quantity sent = filled + resting + removed by cancellation |
| Ledger.TradesAreFair | server/include/order_book.hpp:382-392 | every trade has positive quantity, is at its ask's limit and within its bid's, both of which were sent; every resting quantity is positive |
| Cancellation.NoFillAfterCancel | server/include/order_book.hpp:336-353 | after a KILL or MODIFY naming a placed order no later step of any run fills it |
| Cancellation.RemovedAtMostOnce | server/include/order_book.hpp:449-454 | each order is removed as cancelled, and so confirmed, at most once, and no longer rests then |
| Reports.TradesAreReported | server/include/order_book.hpp:355-364 | every run has a log with one entry a registry lookup; the outbox is exactly the entries whose session was connected; the log's fills are the trades (bid then ask) and its confirmations the removals, in order; each entry goes to its order's session and agrees with the order |
| Reports.TradeLogs | server/include/order_book.hpp:388-389 | one trade adds two entries, the bid's before the ask's, with its quantity, price and what each order still holds |
| Reports.EvictLogs | server/include/order_book.hpp:449-451 | a removal adds one confirmation to the order's session |
| Reports.ProcessExtends | server/include/order_book.hpp:508-528 | one request adds first an error, exactly if it names an order without a flag, and after it only fills and confirmations |
| Provenance.OrdersAreAsSent | server/include/order_book.hpp:348-364 | over every run each resting, removed or reported order has the id, session, symbol, side and price some request placed it with; fills and confirmations go to that session, errors to the session of a request that named an order |
| Provenance.OwnerIsTold | server/include/order_book.hpp:355-364 | with ids used once that request is the only one with the id, so whatever is reported of an order goes to the session that placed it, and what rests is as it was placed, also after a MODIFY |
| OrderBooks.OrderBook.constructor | server/include/order_book.hpp:320-323 | a new book holds the empty value |
| OrderBooks.OrderBook.Tell | server/include/order_book.hpp:340-342 | one registry lookup; the message is sent when the session is connected |
| OrderBooks.OrderBook.SendOrder | server/include/order_book.hpp:325-334 | the book in memory then holds Place of its former value |
| OrderBooks.OrderBook.KillOrder | server/include/order_book.hpp:336-346 | the book in memory then holds Cancel of its former value, the flag written through the pointer the table returned |
| OrderBooks.OrderBook.ModifyOrder | server/include/order_book.hpp:348-353 | the book in memory then holds Replace of its former value: the new order enters even when the cancellation fails; Provenance.OwnerIsTold says that it keeps its session |
| OrderBooks.OrderBook.NotifyFill | server/include/order_book.hpp:355-364 | the fill is reported, and a filled order loses its flag only if its session is connected |
| OrderBooks.OrderBook.DeadFront | server/include/order_book.hpp:441-448 | finds a cancelled order at the front of a side exactly when there is one |
| OrderBooks.OrderBook.EvictFront | server/include/order_book.hpp:449-454 | confirms and removes it |
| OrderBooks.OrderBook.DrainDead | server/include/order_book.hpp:440-456 | the loop computes DrainDead of the former value and terminates |
| OrderBooks.OrderBook.CrossingFronts | server/include/order_book.hpp:374-382 | finds the two fronts exactly when both sides hold orders that cross |
| OrderBooks.OrderBook.TradeBest | server/include/order_book.hpp:384-392 | in-place fill of both fronts, reports and pops give Trade of the former value |
| OrderBooks.OrderBook.Round | server/include/order_book.hpp:370-393 | one turn of the loop |
| OrderBooks.OrderBook.UpdateBook | server/include/order_book.hpp:369-394 | the loop over memory computes UpdateBook of the former value; each continuing turn leaves fewer resting orders |
| OrderBooks.OrderBook.Dispatch | server/include/order_book.hpp:520-527 | each kind of request has its own effect |
| OrderBooks.OrderBook.ProcessRequest | server/include/order_book.hpp:519-528 | counting, dispatch and update give Process of the former value |
| OrderBooks.TradeInSteps | server/include/order_book.hpp:384-392 | reducing, reporting and popping one after the other is one trade |
| RestingBooks.RestingOrders.constructor | server/include/order_book.hpp:320-323 | both sides empty over a fresh pool |
| RestingBooks.RestingOrders.Insert | server/include/order_book.hpp:428-436 | a side's orders, best slot first, gain the order behind all of the same or better slot; the other side is unchanged |
| RestingBooks.RestingOrders.BestSlot | server/include/order_book.hpp:374-376 | the bitmap finds the slot that trades first exactly when the side is not empty |
| RestingBooks.RestingOrders.Front | server/include/order_book.hpp:380-381 | the front of that slot is the first order of the side |
| RestingBooks.RestingOrders.PopFront | server/include/order_book.hpp:391-392 | removes exactly the first order of the side |
| RestingBooks.RestingOrders.SetFront | server/include/order_book.hpp:386-387 | changes the first order in place |
| BookSides.BookSide.Insert | server/include/order_book.hpp:428-436 | level queue, bitmap and slab stay coherent; every other slot of both sides keeps its nodes |
| BookSides.BookSide.BestSlot | server/include/order_book.hpp:374-376 | highest occupied slot for bids, lowest for asks |
| BookSides.BookSide.Front | server/include/order_book.hpp:133-135 | the oldest order of the slot |
| BookSides.BookSide.PopFront | server/include/order_book.hpp:391-392 | removes the oldest order of the slot; the bit goes exactly when the slot empties |
| BookSides.BookSide.SetFront | server/include/order_book.hpp:386-387 | writes the oldest order in place |
| Homes.HostsAfterPush | server/include/order_book.hpp:122-132 | after an append every slot of the side is still a well-formed queue of exactly its nodes and the other side's nodes are untouched |
| Homes.HostsAfterPop | server/include/order_book.hpp:136-143 | the same after a removal |
| Flattening.FlatInsert | server/include/order_book.hpp:428-436 | appending to the queue of a price slot is insertion by slot rank in the whole side |
| Flattening.FlatBest | server/include/order_book.hpp:374-381 | the front of the best slot is the front of the side, and popping it is popping the side |
| Flattening.FlatBestSet | server/include/order_book.hpp:386-387 | changing it is changing the front of the side |
| MemoryAccounts.AllNodesAccounted | server/include/order_book.hpp:70-110 | free nodes and resting orders together are all nodes of the pool |
| MemoryAccounts.OnePlacePerNode | server/include/order_book.hpp:70-143 | every node is in exactly one place: the free list or the queue of one slot of one side |
| MemoryAccounts.RoomWhileFew | server/include/order_book.hpp:77-79 | the pool can take an order exactly while fewer than ORDER_POOL_MAX_CAP orders rest |
| OrderPools.OrderPool.constructor | server/include/order_book.hpp:72-74 | a pool of ORDER_POOL_INITIAL_CAP nodes, all free |
| OrderPools.OrderPool.Acquire | server/include/order_book.hpp:75-90 | takes a free or newly grown node, leaves every other node; fails exactly when the pool is exhausted |
| OrderPools.OrderPool.Release | server/include/order_book.hpp:91-94 | the node heads the free list; orders are not written |
| OrderPools.OrderPool.Grow | server/include/order_book.hpp:99-106 | adds exactly the new nodes to the free list and keeps the old ones |
| OrderPools.LevelPushBack | server/include/order_book.hpp:122-132 | the level's queue gains the order at its end; only the new node and the old tail are written |
| OrderPools.LevelPopFront | server/include/order_book.hpp:136-143 | the queue loses its front, whose node is freed; nothing outside the queue is written |
| OrderPools.LevelFront | server/include/order_book.hpp:133-135 | the first order of the queue |
| OrderPools.SetLevelFront | server/include/order_book.hpp:386-387 | the first order is replaced, links and all other nodes are kept |
| Levels.PushedLevel | server/include/order_book.hpp:124-131 | linking behind the tail gives a well-formed doubly linked queue of one more order |
| Levels.PoppedLevel | server/include/order_book.hpp:137-140 | unlinking the head gives a well-formed queue of the rest |
| Levels.SplicedFree | server/include/order_book.hpp:103-105 | a run of fresh nodes in front of a free list is a free list |
| PriceBitmaps.PriceBitmap.Set | server/include/order_book.hpp:148-151 | the members gain the index; the summary words stay exact |
| PriceBitmaps.PriceBitmap.Clear | server/include/order_book.hpp:152-156 | the members lose the index; the summary bit goes exactly when its word is zero |
| PriceBitmaps.PriceBitmap.FindHighest | server/include/order_book.hpp:157-168 | the greatest member, or none when there is none |
| PriceBitmaps.PriceBitmap.FindLowest | server/include/order_book.hpp:169-180 | the least member, or none when there is none |
| PriceBitmaps.PriceBitmap.Descending | server/include/order_book.hpp:184-199 | all members once each, from the greatest down |
| PriceBitmaps.PriceBitmap.Ascending | server/include/order_book.hpp:201-216 | all members once each, from the least up |
| Words.SetBit | server/include/order_book.hpp:149 | setting a bit adds exactly its position to the ones of the word |
| Words.ClearBit | server/include/order_book.hpp:154 | clearing a bit removes exactly its position |
| Words.HighBit | server/include/order_book.hpp:33-41 | the highest one of a non-zero word |
| Words.LowBit | server/include/order_book.hpp:42-50 | the lowest one of a non-zero word |
| Words.MaskedIndex | server/include/order_book.hpp:276 | masking with a power of two minus one wraps a probe index |
| KillFlags.KillFlagTable.constructor | server/include/order_book.hpp:225 | an empty map over 4096 slots |
| KillFlags.KillFlagTable.Set | server/include/order_book.hpp:228-238 | the map gains key and value; counters, probe paths and the load bound are kept; capacity is 4096 or at most 10/3 of the number of insertions |
| KillFlags.KillFlagTable.Find | server/include/order_book.hpp:240-243 | a slot holding the key exactly when the key is in the map; for any key, the reserved ones included, exactly when the probe meets it before an empty slot |
| KillFlags.KillFlagTable.Assign | server/include/order_book.hpp:345 | a write through the pointer changes the flag of that key only, and nothing of the map for a reserved key |
| KillFlags.KillFlagTable.Erase | server/include/order_book.hpp:245-251 | the map loses the key, a tombstone keeps every other probe path |
| KillFlags.KillFlagTable.LocateForFind | server/include/order_book.hpp:270-278 | probing ends, at the key's slot or at an empty one |
| KillFlags.KillFlagTable.LocateForInsert | server/include/order_book.hpp:280-290 | probing ends at the key's slot if it is in the map, else at the first slot of its path that is a tombstone or empty |
| KillFlags.KillFlagTable.MaybeGrow | server/include/order_book.hpp:292-297 | afterwards the load leaves an empty slot on every probe cycle; the map is unchanged |
| KillFlags.KillFlagTable.Rehash | server/include/order_book.hpp:299-313 | reinsertion keeps the map, drops all tombstones and recounts exactly |
| KillFlags.KillFlagTable.LoadLeavesEmpty | server/include/order_book.hpp:292-297 | below the load bound some slot is empty |
| KillFlags.Occupy | server/include/order_book.hpp:228-238 | writing a key into the slot its probe chose keeps every key reachable |
| KillFlags.Vacate | server/include/order_book.hpp:245-251 | a tombstone keeps every other key reachable |
| KillFlags.Missed | server/include/order_book.hpp:275 | an empty slot on the probe path means the key is nowhere |
| KillFlags.FullCircle | server/include/order_book.hpp:270-278 | a probe that went all round has met every slot |
| KillFlags.LiveCountIsSize | server/include/order_book.hpp:262 | the live counter is the size of the map |
| BookSnapshots.CreateSnapshot | server/include/order_book.hpp:396-423 | the first SNAPSHOT_LEN live orders of each side in priority order, then default orders |
| BookSnapshots.Collect | server/include/order_book.hpp:399-409 | one side: slots in visiting order, each queue from its head, stopping early when full |
| BookSnapshots.VisitLevel | server/include/order_book.hpp:400-408 | adds the live orders of one level in queue order until the side is full |
| SnapshotRuns.SnapshotEntries | server/include/order_book.hpp:396-423 | entry k of a side of any snapshot is the k-th live order of that side, if there is one, and otherwise has id, price and quantity 0 |
| SnapshotRuns.SnapshotShowsBest | server/include/order_book.hpp:396-423 | after any run at prices whose slots keep their order, entry k is the k-th order of the price-time book, if there is one, and otherwise has id, price and quantity 0 |
| SnapshotRuns.SubscriberSees | server/include/order_book.hpp:528-540 | after any such run a subscriber reads from the bytes broadcast the number of requests and entry by entry the orders of the price-time book, exactly when they fit their fields |
| SnapshotRuns.SnapshotIsLadder | server/include/order_book.hpp:396-423 | its bids do not rise, its asks do not fall, and every bid shown is below every ask shown |
| Symbols.HashInjective | server/include/order_book.hpp:466-472 | distinct symbols have distinct hashes |
| Symbols.EveryShardUsed | server/include/order_book.hpp:471 | every shard is the shard of some symbol |
| Markets.PartitionShards | server/include/server_classes.cpp:60-68 | consecutive ranges that cover all shards, all but the last of equal size |
| Markets.OneOwner | server/include/server_classes.cpp:60-68 | every shard is in exactly one thread's range |
| Markets.ShardsIsolated | server/include/order_book.hpp:487-506 | in every interleaving each request waits on its own symbol's shard and is processed there, by the one thread owning it |
| Markets.QueueOrderKept | server/include/order_book.hpp:487-500 | each symbol's submissions are its processed requests followed by its queued ones, in order |
| Markets.BookIsRunOfItsSymbol | server/include/order_book.hpp:508-528 | each listed symbol's book is the sequential run of its own processed requests |
| Markets.BooksStayListed | server/include/order_book.hpp:544-556 | books exist for exactly the listed symbols |
| Markets.UnknownSymbol | server/include/order_book.hpp:511-516 | a request for an unlisted symbol leaves every book alone, and its session, if connected, is sent SYMBOL_NOT_FOUND; no other request is answered so |
| Markets.SequenceNumber | server/include/order_book.hpp:519 | seq_len is the number of requests |
| MarketProgress.SubmitQueues | server/include/order_book.hpp:487-491 | a submission waits at the end of its symbol's shard's queue and changes nothing else |
| MarketProgress.DrainTakesHead | server/include/order_book.hpp:493-500 | a drain takes exactly the head off a non-empty queue and logs it as processed by that thread; of an empty queue it does nothing |
| MarketProgress.QueueDrains | server/include/order_book.hpp:502-506 | while nothing is submitted to a shard, each of its drains takes one request off its front, whatever happens in between |
| MarketProgress.EverythingIsProcessed | server/include/order_book.hpp:493-528 | once a shard is drained as often as its queue was long, everything submitted for each of its symbols has been processed in order, and each listed one's book is the run of all of it |
| Intake.ReadOne | server/include/server_classes.cpp:12-31 | decoding, checks, numbering and acknowledgement give Admit and its reply |
| Intake.SendAnswered | server/include/server_classes.hpp:66-74 | a client that sends a new order whose numbers fit hears back exactly one response: its own data and the id when price and quantity are positive, INVALID_PRICE when the price is not, INVALID_QUANTITY when only the quantity is not |
| Intake.ReadListener | server/include/server_classes.cpp:5-35 | the orders submitted for all arrivals, numbered in order |
| Intake.SendAccepted | server/include/server_classes.cpp:14-30 | a client's new order is accepted as sent exactly when price and quantity are positive and below 2^31 |
| Intake.ModifyAccepted | server/include/server_classes.cpp:18-30 | a client's modification is accepted as a modification, as sent, under its new id and naming the old one, exactly when price and quantity are positive and all three numbers are below 2^31 |
| Intake.KillAccepted | server/include/server_classes.cpp:22-30 | a client's cancellation is always accepted as one, and names the id it was sent for exactly when that is in [0, 2^31) |
| Intake.ModifyAnswered | server/include/server_classes.cpp:18-30 | what the client hears back for a modification: its own data with both ids, or the code for the first of price and quantity that is not positive |
| Intake.KillAnswered | server/include/server_classes.cpp:22-30 | what the client hears back for a cancellation: its acknowledgement, with the new id and the id it names |
| Intake.MalformedAnswered | server/include/server_classes.cpp:24-26 | any other first byte is refused, and the client hears MALFORMED_REQUEST |
| Intake.AdmittedExactly | server/include/server_classes.cpp:5-35 | each accepted arrival is submitted next after those accepted before it, and only accepted ones are |
| Intake.AdmittedInOrder | server/include/server_classes.cpp:27 | ids are 1, 2, 3, ... and placed orders have positive quantity and an allowed price |
| Intake.SubmissionsAreValid | server/include/server_classes.cpp:14-30 | however submitted orders are queued, what reaches a book is a run as the theorems assume it, over any prices that include those it places orders at |
| Intake.SubmittedPrices | server/include/server_classes.cpp:14-30 | the prices the server lets through are such prices |
| MarketRuns.ServedMarketIsPriceTime | server/include/server_classes.cpp:12-31 | from the wire to the book: when what is submitted for a symbol are orders the server admitted, at prices whose slots keep their order, its book is in every interleaving the price-time book of its processed requests |
| Intake.ServerPricesNotOrdered | server/include/server_classes.hpp:66-74 | the prices the server lets in do not meet the exact condition: it admits runs on which the engine is no price-time book |
| Bytes.NumberToBytes | server/include/conversions.hpp:92-105 | big-endian bytes, at least the given number, more when the number does not fit, zeros for a negative one |
| Bytes.ByteConversion | server/include/conversions.hpp:10-17 | up to four bytes read as a signed 32-bit number, by the or-and-shift loop on 64-bit words |
| Bytes.ReadBigEndian | client_subscriber/include/conversions.hpp:10-17 | up to eight bytes read as a signed 64-bit number |
| Bytes.ValueOfBigEndian | server/include/conversions.hpp:92-105 | a number below 256^k survives k bytes |
| Bytes.BigEndianOfValue | server/include/conversions.hpp:10-17 | bytes survive being read and written again |
| Fields.FieldExact | client/include/conversions.hpp:29-36 | a four-byte field is read back exactly when it is non-negative and below 2^31 (client, server) or 2^32 (subscriber) |
| Fields.FieldsExact | client/include/conversions.hpp:29-36 | a row of fields is read back exactly when each is, whatever follows |
| RequestCodec.PadMessage | client/include/conversions.hpp:24-28 | spaces up to the frame length |
| RequestCodec.SendOrder | client/include/client_classes.hpp:26-30 | builds the frame that SendRoundTrip is about |
| RequestCodec.SendModify | client/include/client_classes.hpp:31-35 | builds the frame that ModifyRoundTrip is about |
| RequestCodec.SendKill | client/include/client_classes.hpp:36-40 | builds the frame that KillRoundTrip is about |
| RequestCodec.DecodeSendOrder | server/include/conversions.hpp:18-30 | reads the order that SendRoundTrip compares with what was sent |
| RequestCodec.DecodeKillOrder | server/include/conversions.hpp:31-41 | reads the order that KillRoundTrip compares with what was sent; the side is whatever was there |
| RequestCodec.DecodeModifyOrder | server/include/conversions.hpp:42-54 | reads the order that ModifyRoundTrip compares with what was sent |
| RequestCodec.FrameExact | client/include/client_classes.hpp:26-40 | the server reads head and numbers of any frame as built exactly when the numbers fit; the frame then has its fixed length |
| RequestCodec.FrameLayouts | client/include/client_classes.hpp:26-40 | byte for byte what each frame is: request letter, side, symbol, then quantity, price and id in that order, and spaces |
| RequestCodec.SendRoundTrip | client/include/client_classes.hpp:26-30 | a new order arrives as sent exactly when quantity and price are in [0, 2^31) |
| RequestCodec.ModifyRoundTrip | client/include/client_classes.hpp:31-35 | so does a modification, with the id it names |
| RequestCodec.KillRoundTrip | client/include/client_classes.hpp:36-40 | so does a cancellation, except for the side it does not carry |
| ResponseCodec.EncodeAck | server/include/conversions.hpp:55-65 | writes an acknowledgement as Encoded, which DecodedExact inverts |
| ResponseCodec.EncodeFullFill | server/include/conversions.hpp:66-74 | writes a full fill as Encoded, which DecodedExact inverts |
| ResponseCodec.EncodePartialFill | server/include/conversions.hpp:75-84 | writes a partial fill as Encoded, which DecodedExact inverts |
| ResponseCodec.EncodeKillConfirm | server/include/conversions.hpp:85-91 | writes a cancellation confirmed as Encoded, which DecodedExact inverts |
| ResponseCodec.EncodeError | server/include/order_book.hpp:341 | writes an error as Encoded, which DecodedExact inverts |
| ResponseCodec.DecodeBody | client/include/client_classes.hpp:88-94 | each body is decoded by its type, field by field |
| ResponseCodec.BodyLength | client/include/conversions.hpp:37-46 | the client's length of each body is what the server writes when the numbers fit |
| ResponseCodec.DecodedExact | client/include/conversions.hpp:47-85 | the client decodes any response as sent exactly when all its numbers are in [0, 2^31) |
| ResponseCodec.ClientTCPListener | client/include/client_classes.hpp:77-99 | the reading loop cuts a stream as Hear does: type byte, then its body, unknown type bytes passed over |
| ResponseCodec.FramingExact | client/include/client_classes.hpp:77-99 | a sequence of responses is recovered from the concatenated bytes exactly when all their numbers fit |
| ResponseCodec.FramingContinues | client/include/client_classes.hpp:77-99 | and what follows them is heard as if it came first |
| ResponseCodec.HearInParts | client/include/client_classes.hpp:77-99 | hearing a stream in two parts, keeping what the first leaves incomplete, is hearing it whole |
| ResponseCodec.HearPastUnknown | client/include/client_classes.hpp:84 | bytes that are no type byte are passed over |
| ResponseCodec.HearWaits | client/include/client_classes.hpp:85 | nothing is heard of a body before its last byte has come |
| MessageCodec.WriteMessage | server/include/order_book.hpp:355-364 | each message of a book is written by its own encoder |
| MessageCodec.AckLayout | server/include/conversions.hpp:55-65 | byte for byte what an acknowledgement is |
| MessageCodec.FullFillLayout | server/include/conversions.hpp:66-74 | byte for byte what a full fill is |
| MessageCodec.PartialFillLayout | server/include/conversions.hpp:75-84 | byte for byte what a partial fill is |
| MessageCodec.ConfirmLayout | server/include/conversions.hpp:85-91 | byte for byte what a confirmation is |
| MessageCodec.MessageHeard | server/include/conversions.hpp:66-91 | from the bytes of a book's message the client hears exactly one response with its order's id, symbol and side, its quantities, price or code, exactly when its numbers are in [0, 2^31) |
| MessageCodec.FillHeard | server/include/conversions.hpp:66-84 | of a fill the client hears the id, quantity and price that Reports.TradesAreReported ties to the trade |
| MessageCodec.MessagesHeard | client/include/client_classes.hpp:77-99 | from messages written one after the other the client hears one such response each, in order, whatever follows |
| SnapshotCodec.OrderToBytes | server/include/conversions.hpp:107-114 | id, price and quantity as one row |
| SnapshotCodec.SnapshotToBytes | server/include/conversions.hpp:115-127 | symbol, sequence number and the rows of both sides |
| SnapshotCodec.GetSnapshot | client_subscriber/include/conversions.hpp:19-67 | the same parts read at their offsets |
| SnapshotCodec.SnapshotRoundTrip | server/include/conversions.hpp:115-127 | a subscriber always reads the symbol, and the sequence number and the id, price and quantity of every entry shown exactly when every field is in [0, 2^32) and the sequence number in [0, 2^63) |

## Left out

* Sockets, Asio callbacks, partial reads, threads, JSON files, printing and UDP delivery: whole frames
  arrive, and whole messages go to the outbox.
* The lock-free queue: an unbounded FIFO whose operations are atomic.
* The session registry and its locks: an arbitrary answer for each lookup.
* Book objects inside the market: shards hold book values, since each book in memory is proved equal
  to its value (`Requests.RunBook`); broadcasting a snapshot on its own thread is not modelled.
* Overflow of the table's 32-bit capacity and counters, and of 64-bit quantities, ids and seq_len.
* Moves, alignment and reallocation of vectors: an array that grows is copied into a longer one.
* Symbols and sides as strings of any length: a symbol is already cut or filled up to four bytes, and a
  client's side is one letter.
* `market_listener`'s endless loop: a run is any finite interleaving of submissions and drains.
* The unused `SEND_FILLED`, `get_order_id` and snapshot queue, and `level_price` beyond its being written.
- OrderBooks.OrderBook.SendOrder: requires room in the pool, where the code throws once ORDER_POOL_MAX_CAP orders rest; MemoryAccounts.RoomWhileFew says exactly when that is, and OrderPools.OrderPool.Acquire models the failure.
- OrderBooks.OrderBook.ProcessRequest: a placing request needs an id other than the two reserved keys; Intake.AdmittedInOrder shows that the server's ids start at 1.
- OrderBooks.OrderBook.KillOrder: for the reserved key -2 the answer depends on tombstones, which the value of a book does not hold; the ghost result `hit` says what the probe met and is handed to the value.
- PriceBitmaps.PriceBitmap.Descending: returns the whole visiting order, where the code stops early; BookSnapshots.Collect stops early over it.
- PriceBitmaps.PriceBitmap.Ascending: returns the whole visiting order, as Descending does.
- Bytes.ByteConversion: at most four bytes, since the code shifts an int; at eight bytes its shift is undefined.
- RequestCodec.DecodeKillOrder: the side is an argument, since the code leaves it uninitialised.
- Markets.BookIsRunOfItsSymbol: the registry's answers are per book and lookup, not per moment in time.
