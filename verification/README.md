# A verified model of the exchange and its market-data feed

This project models the trading system's hardest parts and proves what they promise:

- the matching engine's order book, both as a pure price-time book and as the linked structure the
  program keeps (two nested circular rings, a price table, a client order table, two memory pools);
- the market-data feed: the engine's updates, the publisher that numbers them, the synthesizer that
  folds them into snapshots, the consumer that recovers from lost packets, and the participant's
  linked book with its cached best bid and offer;
- the single-producer single-consumer ring between the threads, under every interleaving;
- the order server's framing of byte streams and its request sequencing.

Pointers are cell indices into the preallocated pools, `NIL` is the null pointer, and the hash tables are
maps whose absent entries are null. Each class keeps the fields of the program's and changes them in place;
ghost sequences say what the linked cells stand for, and every method is proved against a pure function
of that meaning. The lemmas are about those functions, over all inputs and all histories.

## How the files fit together

| part | files |
|---|---|
| records and constants | `Types.dfy`, `Sequences.dfy` |
| price-time book, safety, order life, messages | `PriceTimeBook.dfy`, `BookSafety.dfy`, `Lifecycle.dfy`, `Accounts.dfy`, `RequestOutcomes.dfy` |
| rings and pool | `Rings.dfy`, `MemPool.dfy` |
| linked ladder shared by both books | `LadderHeap.dfy`, `LadderOrder.dfy`, `PriceLadder.dfy` |
| exchange book | `MatchingBook.dfy`, `MEOrderBook.dfy`, `EngineRun.dfy` |
| replicas and replication | `ReplicaBook.dfy`, `Replication.dfy`, `BestBidOffer.dfy`, `MarketOrderBook.dfy`, `BookFollower.dfy`, `LateFollower.dfy` |
| snapshots | `MarketFeed.dfy`, `LateJoiner.dfy`, `SnapshotSynthesizer.dfy`, `MarketDataPublisher.dfy` |
| recovery | `RecoveryProtocol.dfy`, `RecoverySafety.dfy`, `RecoveryProgress.dfy`, `SettledTables.dfy`, `MixedSnapshots.dfy`, `ReplicaRecovery.dfy`, `MarketDataConsumer.dfy`, `FeedFollower.dfy`, `LateStart.dfy` |
| threads and sockets | `SpscQueue.dfy`, `OrderServer.dfy` |

## What the code needs and does not check

These are preconditions of the classes, stated as weakly as the code allows:

- a new order has a real side; when a remainder rests, its ids are within the tables, its client order id is not
  already resting, both pools keep a cell in reserve (allocation aborts when it takes the last cell), and no other
  resting price falls into its slot of the price table, which is indexed by `price % 256` and never compares prices
  (prices below 256 always satisfy this, `MatchingBook.SmallPricesNeverClash`);
- the market order ids handed out stay within the id tables of the feed (the exchange's own book does not look them up and does
  not need this);
- the producer of a ring leaves at most one cell less than all cells unread, because there is no check for a full ring;
- a decoded request names a client within the tables.

## Where the code departs from the obvious claim

- A resting order is published with the quantity it entered with, not with what is left of it
  (src/exchange/order_book.cpp:41). A replica is therefore exact if and only if no order rests that was partly filled
  on entry and has not been hit since. Whether a request will be one is known before it: something it crosses rests, but
  less than it asks for. `Replication.ExactUnlessPartlyFilled`, `Replication.RunExactlyWhenUnmarked` and the concrete
  `Replication.PartlyFilledOrderIsOverstated` say so.
- The first order on an empty side does not refresh the best bid and offer (src/client/market_order_book.cpp:15-16):
  `BestBidOffer.FirstOrderIsNotQuoted` and the concrete `BestBidOffer.FirstBuyerIsNotQuoted`.
  `BestBidOffer.BboIsRight` says exactly when a side is exact and when it is still invalid.
- A consumer cannot tell two snapshot publications apart by sequence number alone
  (src/client/market_data_consumer.cpp:116-123). Recovery is safe when the queued snapshot messages come from one
  publication. When they come from several, recovery completes all the same if what is queued runs on, and what was passed
  on is right if and only if the updates taken after the snapshot's number settle every key in which the queued messages and
  the published state differ (`MixedSnapshots.SnapshotIsRightExactly`, `SettledTables.AgreeExactly`). For one publication up to
  some message and another from there on, the tables do not differ if and only if the two agree up to that message, and then
  it is harmless whatever is queued (`MixedSnapshots.MixRestoresExactly`, `MixedSnapshots.MixIsHarmlessExactly`); in the run of
  `MixedSnapshots.MixedPublicationsMislead` they do not, and an order goes missing.
- With every cell of a ring unread the two indices meet and the queue looks empty, whatever its counter says
  (include/utils/spsc_queue.hpp:39-40); the next write destroys the oldest element. From every state this happens exactly
  when a write fills the last cell: `SpscQueues.FullRingLooksEmpty`, `SpscQueues.OneMoreOverwrites`.
- The synthesizer ignores a CLEAR, while a participant takes it to empty the ticker; the engine never sends one.
- The participant's tables have no initializer (include/client/market_order_book.hpp:40,46); they are modelled as null-filled.

## Model

| member | source | states |
|---|---|---|
| MemPools.MemPool.UpdateNextFree | include/utils/mem_pool.hpp:20-33 | the scan leaves the index on the lowest free cell |
| MemPools.MemPool.Allocate | include/utils/mem_pool.hpp:49-60 | the cell handed out was not live, holds the new object, is now live, and no other cell changed; the next free index again names a free cell |
| MemPools.MemPool.Deallocate | include/utils/mem_pool.hpp:62-70 | exactly the given live cell becomes free |
| Rings.SpliceIsInsert | src/exchange/order_book.cpp:93-99 | the four link writes turn a closed ring into the closed ring with the new cell just before the given one |
| Rings.UnlinkIsRemove | src/exchange/order_book.cpp:144-150 | relinking the neighbours turns a closed ring into the closed ring without the cell |
| Rings.SelfLinkedMeansAlone | src/exchange/order_book.cpp:141-142 | a cell of a ring points to itself both ways exactly when it is the only one |
| Rings.WalkFollowsRing | src/client/market_order_book.cpp:93-94 | from any cell of a ring, following `next` any number of times goes around the ring in order, for as many turns as that takes |
| LadderHeap.AppendOrderInv | src/exchange/order_book.cpp:55-62 | linking an order before the head of its level's ring keeps both rings, both tables and the sort of the levels intact |
| LadderHeap.LinkLevelInv | src/exchange/order_book.cpp:68-111 | linking a new level at its sorted place keeps the whole structure: closed rings, strict price order from the head, exact price table |
| LadderHeap.UnlinkOrderInv | src/exchange/order_book.cpp:143-151 | taking one of several orders out of a level keeps the structure |
| LadderHeap.DropLevelInv | src/exchange/order_book.cpp:157-174 | taking out a level, best or not, last or not, keeps the structure of all the others |
| PriceLadders.PriceLadder.FindNextLevel | src/exchange/order_book.cpp:76-91 | the look-ahead loop ends, and stops before the first worse level or back at the head when there is none |
| PriceLadders.PriceLadder.AddOrderAtPrice | src/exchange/order_book.cpp:68-111 | a new level goes to the one slot that keeps the levels sorted, and becomes the head only for a better price |
| PriceLadders.PriceLadder.AddOrderToPriceLevel | src/exchange/order_book.cpp:47-65 | the order joins the tail of its price's level or starts a new level at its sorted place, and all rings, tables and pools agree again |
| PriceLadders.PriceLadder.RemoveOrder | src/exchange/order_book.cpp:138-155 | the order leaves its side's price-time sequence at its place; its cell, and its level's cell if it was the last order, are free |
| PriceLadders.PriceLadder.RemoveOrderAtPrice | src/exchange/order_book.cpp:157-174 | the level leaves its ring and the table, the head moves on if it was the best, and its cell is free |
| PriceLadders.PriceLadder.Place | src/exchange/order_book.cpp:35-39 | allocating and filing an order inserts it into its side's price-time sequence and leaves the other side alone |
| PriceLadders.PriceLadder.Remove | src/exchange/order_book.cpp:138-155 | removing an order removes exactly that element of its side's sequence |
| PriceLadders.PriceLadder.BestOrder | src/exchange/order_book.cpp:180-181 | the head order of the head level is the first of the side's price-time sequence, or null when the side is empty |
| MatchingBook.TableFinds | src/exchange/order_book.cpp:114-120 | the client order table finds an order exactly when it rests, and the same one |
| MatchingBook.LevelCount | include/exchange/order_book.hpp:43-49 | there are never more live levels than distinct resting prices |
| MatchingBook.LinkedCellsSize | src/exchange/order_book.cpp:35 | there are never more live order cells than resting orders |
| MatchingBook.SlotOfPrice | include/exchange/order_book.hpp:47-49 | when a remainder is rested, the slot at its price is empty or holds a level of that very price and side |
| MatchingBook.PriorityAtSlot | include/exchange/order_book.hpp:51-58 | the tail of the slot's level gives one more than the priority of the youngest order at the price, and 1 on a free slot |
| MatchingBook.RemainderReady | src/exchange/order_book.cpp:32-39 | after a sweep, nothing on the other side rests at the remainder's price and its owner is free |
| MEOrderBooks.MEOrderBook.GenerateNextOrderId | include/exchange/order_book.hpp:39-41 | ids are handed out one by one |
| MEOrderBooks.MEOrderBook.GetPriority | include/exchange/order_book.hpp:51-58 | the pointer walk returns the model's next priority at the price |
| MEOrderBooks.MEOrderBook.MatchOrder | src/exchange/order_book.cpp:204-235 | one call makes exactly the model's fill of the head order: quantities, both responses, the trade and the maker's update |
| MEOrderBooks.MEOrderBook.CheckForMatch | src/exchange/order_book.cpp:176-201 | the loop ends and makes exactly the model's whole sweep |
| MEOrderBooks.MEOrderBook.Add | src/exchange/order_book.cpp:23-44 | a new order leaves exactly the model's book, responses and updates |
| MEOrderBooks.MEOrderBook.Cancel | src/exchange/order_book.cpp:113-135 | a cancel leaves exactly the model's book and messages, or rejects when ids are out of range or name nothing resting |
| EngineRun.ServeHistory | src/exchange/order_book.cpp:23-135 | a fresh linked book serving any history of valid requests ends with the book, responses and updates of the pure model |
| EngineRun.ServeOne | src/exchange/order_book.cpp:23-135 | one request, new or cancel, takes the linked book to the model's outcome |
| BookSafety.SweepClosedForm | src/exchange/order_book.cpp:176-201 | a sweep trades the lesser of what is asked and what crosses, strictly from the front of the other side |
| BookSafety.SweptTrims | src/exchange/order_book.cpp:204-231 | after a sweep the other side is a suffix of what it was, only quantities changed and all positive |
| BookSafety.InsertAtSlot | src/exchange/order_book.cpp:68-111 | price-time insertion is insertion at the one slot behind all prices at least as good |
| BookSafety.NextPriorityIsAbove | include/exchange/order_book.hpp:51-58 | a new priority is above every resting one at its price |
| BookSafety.RemainderUncrossed | src/exchange/order_book.cpp:179-198 | what rests after a sweep crosses nothing the sweep left standing |
| BookSafety.ProcessKeepsInv | src/exchange/order_book.cpp:23-135 | every acceptable request keeps the book sorted by price and time, free of duplicates, positive and uncrossed |
| BookSafety.RunKeepsInv | src/exchange/order_book.cpp:23-135 | every reachable book is sorted by price and time, free of duplicates, positive and uncrossed |
| Lifecycle.RunLife | src/exchange/order_book.cpp:26-217 | over any history each market order id is accepted once, filled with strictly decreasing leftovers that account for themselves, and ended by leftover 0 or one cancel carrying the rest; nothing follows |
| Lifecycle.LifeBalances | src/exchange/order_book.cpp:204-217 | a log without messages out of turn balances: accepted is filled plus cancelled plus open |
| Lifecycle.RunLedger | src/exchange/order_book.cpp:23-135 | over any history, accepted quantity is what was filled, was cancelled or still rests, id by id |
| Lifecycle.SweepConserves | src/exchange/order_book.cpp:204-219 | in a sweep the taker's fills, the makers' fills and the traded quantity in market data are equal |
| Lifecycle.SweepIsFair | src/exchange/order_book.cpp:176-231 | fill number i goes to order number i in price-time order, at that order's price and within the taker's limit; all but the last exhaust their order |
| Lifecycle.SweepSparesTheRest | src/exchange/order_book.cpp:176-201 | orders behind the last one filled keep their place and quantity |
| Lifecycle.SweepPricesMonotone | src/exchange/order_book.cpp:176-201 | along a sweep prices only move away from the taker |
| Accounts.ResponsesAgree | src/exchange/order_book.cpp:212-217 | over any history all responses about one market order have one addressee, client order id and side, and no fill is outside the accepted limit |
| Accounts.FillsAreReportedAlike | src/exchange/order_book.cpp:212-231 | the two fills, the trade and the maker's update of each fill agree on ids, side, price and quantities |
| RequestOutcomes.NewOrderOutcome | src/exchange/order_book.cpp:23-44 | a new order meets exactly the first orders within its limit that find quantity left; acceptance and every fill's two responses, trade and maker's update are given field by field; what is left of the last order met keeps its place, and what is left of the new one rests behind every price at least as good, one priority past the last at its price, published with its entry quantity |
| RequestOutcomes.CancelOutcome | src/exchange/order_book.cpp:113-135 | a cancel takes out the order that client placed under that id, at whatever position it rests, and the one response and one update carry that order's fields |
| RequestOutcomes.RejectOutcome | src/exchange/order_book.cpp:113-120 | when the client has no such order resting, the book stays, nothing is published, and that client is told under that id |
| RequestOutcomes.RunIsAnonymous | src/exchange/order_book.cpp:219 | over any history no trade names an order or a priority |
| RequestOutcomes.IdsAreCounted | include/exchange/order_book.hpp:39-41 | over any history the next market order id is one past the number of new orders |
| ReplicaBook.ReplayKeepsInv | src/client/market_order_book.cpp:18-48 | every prefix of a legal stream leaves a replica in price-time order without duplicates |
| Replication.RunFeed | src/exchange/order_book.cpp:41 | over any history the updates are a legal stream, and replaying them gives the exchange's levels and queues of id, side, price and priority, with equal quantities except for orders partly filled on entry and not hit since |
| Replication.ExactUnlessPartlyFilled | src/exchange/order_book.cpp:32-42 | from an exact replica, one request leaves it exact if and only if it is not one that crosses something, but less than it asks for |
| Replication.RemainderShrinks | src/exchange/order_book.cpp:32-42 | a request rests with less than it entered with exactly when what it crosses beforehand is more than nothing and less than it asks for |
| Replication.RunExactlyWhenUnmarked | src/exchange/order_book.cpp:41 | after any history the replica equals the book, quantities included, if and only if no such order rests |
| Replication.PartlyFilledOrderIsOverstated | src/exchange/order_book.cpp:41 | a buyer of 8 meeting a seller of 5 rests 3 while the replica shows 8 |
| MarketFeed.SnapshotRestores | src/exchange/snapshot_synthetizer.cpp:79-96 | whatever was known before, a snapshot's body leaves exactly the published orders |
| MarketFeed.SnapshotContents | src/exchange/snapshot_synthetizer.cpp:73-103 | a publication is numbered from zero, carries the last number it covers at both ends, and in between has one bare clear for each ticker and each live order once: as many messages as live orders and tickers, and two |
| MarketFeed.LastWordStands | src/exchange/snapshot_synthetizer.cpp:31-66 | after any stream an order is as its last addition says, with price and quantity of the last revision since, unless it was cancelled or its ticker cleared |
| MarketFeed.GoneUntilAdded | src/client/market_order_book.cpp:40-72 | after its cancel or its ticker's clear an order is unknown until it is added again, whatever revises it |
| LateJoiner.TableFollows | src/exchange/snapshot_synthetizer.cpp:31-71 | after any legal interleaved stream the table lists exactly every ticker's replica, and no update met an unexpected order |
| LateJoiner.TableHoldsTheBooks | src/exchange/snapshot_synthetizer.cpp:31-67 | for any interleaving of the tickers' histories every assertion about orders holds at every update, and the table holds exactly the resting orders as published |
| LateJoiner.ChangesById | src/client/market_order_book.cpp:28-48 | any revision or cancel, on whatever side it claims, changes the quantity of the one order under its id or takes that one out, and does nothing when the id is unknown |
| LateJoiner.BelowInserts | src/exchange/snapshot_synthetizer.cpp:88-94 | ascending market order id is time priority within every level: the next id goes exactly where price-time insertion puts it |
| LateJoiner.SnapshotRebuilds | src/exchange/snapshot_synthetizer.cpp:79-96 | replaying a snapshot's body gives each ticker its levels, queues and quantities |
| LateJoiner.LateJoinerCatchesUp | src/exchange/snapshot_synthetizer.cpp:73-103 | a snapshot taken after any number of updates, then the updates that follow it, mean for every ticker what the whole stream means |
| LateJoiner.LateJoinerSeesTheBook | src/exchange/snapshot_synthetizer.cpp:73-103 | the same for the engine's own stream: a replica that starts from a snapshot means the book as published |
| SnapshotSynthesizers.SnapshotSynthesizer.AddSnapshot | src/exchange/snapshot_synthetizer.cpp:31-71 | one update changes the table as its meaning says, takes or frees one pool cell, and steps the sequence number |
| SnapshotSynthesizers.SnapshotSynthesizer.Drain | src/exchange/snapshot_synthetizer.cpp:106-116 | draining a queue folds every update into the table |
| SnapshotSynthesizers.ClearsAreIgnored | src/exchange/snapshot_synthetizer.cpp:31-71 | the synthesizer's table means the stream it was given without the clears in it |
| SnapshotSynthesizers.SnapshotSynthesizer.PublishSnapshot | src/exchange/snapshot_synthetizer.cpp:73-103 | sends start, each ticker's clear and live orders in ascending id, and end, numbered from zero without a gap |
| MarketDataPublishers.MarketDataPublisher.Drain | src/exchange/market_data_publisher.cpp:25-45 | everything queued is sent numbered on from the last number, and the synthesizer's copy is the same |
| MarketDataPublishers.EngineIsDrainable | src/exchange/snapshot_synthetizer.cpp:36-59 | the engine's own stream passes every assertion on its way into the table, given cells to spare |
| MarketDataPublishers.Serve | src/exchange/market_data_publisher.cpp:20-48 | a stream through publisher and synthesizer gives the numbered stream and the snapshot of its meaning |
| RecoveryProtocol.RecoveryCompletes | src/client/market_data_consumer.cpp:135-198 | recovery completes if and only if a whole snapshot is queued and the later incrementals run on from it; then the next number is one past them, or past the snapshot |
| RecoveryProtocol.CatchUpExactly | src/client/market_data_consumer.cpp:166-184 | the incremental queue is caught up with if and only if its entries above the snapshot leave no gap |
| RecoveryProtocol.NothingForwardedWhileLost | src/client/market_data_consumer.cpp:77-102 | over messages of both sockets in any order: from the one that starts recovery up to any later one that has not completed it, nothing is passed on |
| RecoveryProtocol.RunForwardsNothingWhileLost | src/client/market_data_consumer.cpp:56-104 | the same for any run of callbacks of both sockets |
| RecoveryProtocol.RecoveryStartsOnGap | src/client/market_data_consumer.cpp:60-88 | over any run of callbacks, recovery is ever entered if and only if the incremental messages, put together, are not numbered 1, 2, 3 and so on |
| RecoverySafety.RecoveryIsSafe | src/client/market_data_consumer.cpp:56-198 | over any run of lost, repeated and reordered genuine messages, outside recovery what was passed on means the published state before the next expected number |
| RecoverySafety.NoLossNoRecovery | src/client/market_data_consumer.cpp:60-95 | however a complete stream is cut into callbacks, and whatever snapshot callbacks come in between, there is no recovery and exactly the published updates are passed on |
| RecoveryProgress.PublicationRecovers | src/client/market_data_consumer.cpp:116-198 | whatever the queues of a consumer in recovery hold, a whole snapshot received in order, with incremental messages anywhere in between, ends the recovery if and only if the queued incremental messages run on from it; then the outcome is exactly the splice |
| RecoveryProgress.RunRecovers | src/client/market_data_consumer.cpp:56-198 | the same after any run of callbacks that ends in recovery |
| RecoveryProgress.PublishedSnapshotRecovers | src/client/market_data_consumer.cpp:56-198 | after any such run, the publication after message n in one callback ends the recovery if and only if the messages queued above n run on from it |
| RecoveryProgress.LostQueuesEverything | src/client/market_data_consumer.cpp:77-132 | from the message that starts recovery on, that message included, every incremental message is queued and nothing else is, for as long as recovery lasts |
| RecoveryProgress.GapToRecovery | src/client/market_data_consumer.cpp:77-198 | from the gap to the end: whatever came since, a publication received whole and in order ends the recovery if and only if all incremental messages since the gap, the first one included, run on from it; the next number is one past them |
| RecoveryProgress.CatchUpStopsAtGap | src/client/market_data_consumer.cpp:166-177 | a splice that fails stops at the first number missing from the queue, with all before it queued and one beyond it |
| RecoveryProgress.FailedRecovery | src/client/market_data_consumer.cpp:166-184 | a recovery that a whole snapshot cannot end drops the snapshot, keeps the incremental queue, passes nothing on and expects the missing number |
| RecoveryProgress.LeftoverRestartsRecovery | src/client/market_data_consumer.cpp:77-102 | a snapshot message still in the buffer when recovery has ended is dropped if its number is the one expected, and starts a new recovery otherwise |
| MixedSnapshots.CutRestoresExactly | src/exchange/snapshot_synthetizer.cpp:79-96 | one publication's body up to some position and another's from there on restore what the second published if and only if the two agree up to that position |
| SettledTables.AgreeExactly | src/client/market_data_consumer.cpp:166-190 | a run of updates makes two tables the same if and only if it settles every key: equal already, or overwritten by an addition, a cancel or a clear, or differing only in price and quantity and revised |
| MixedSnapshots.SnapshotIsRightExactly | src/client/market_data_consumer.cpp:56-198 | after any genuine run that ends in recovery, for any whole snapshot, wherever its messages are from and whatever genuine incremental messages come in between: recovery ends if and only if what is queued runs on, and then what was passed on means the published state if and only if the updates taken settle every key in which snapshot and state differ |
| MixedSnapshots.MixRestoresExactly | src/exchange/snapshot_synthetizer.cpp:79-96 | the messages of one publication up to a cut and of another from there on leave the second's state, from any table in range, if and only if the two agree up to the cut |
| MixedSnapshots.MixIsHarmlessExactly | src/client/market_data_consumer.cpp:116-198 | the same for such a mix, received in any callbacks with incremental messages in between; if the two publications agree up to the cut it is harmless, whatever is queued |
| MixedSnapshots.MixAloneIsHarmlessExactly | src/client/market_data_consumer.cpp:116-198 | with nothing queued above the second publication, such a mix in one callback ends the recovery and is harmless if and only if the two publications agree up to the cut |
| MixedSnapshots.MixedPublicationsMislead | src/client/market_data_consumer.cpp:56-198 | a run: one order and its repetition, then a snapshot cut from the publications before and after it; recovery completes and the order is missing |
| ReplicaRecovery.RecoveryKeepsQueues | src/client/market_data_consumer.cpp:56-198 | over such runs a replica fed with what was passed on has every ticker's levels, queues and quantities of one that saw the whole stream |
| MarketDataConsumers.MarketDataConsumer.RecvCallbacks | src/client/market_data_consumer.cpp:56-104 | the receive loop takes the protocol's step for every message of the buffer |
| MarketDataConsumers.MarketDataConsumer.QueueMessage | src/client/market_data_consumer.cpp:116-132 | queues a message, starting the snapshot queue afresh on a repeated number, and tries to recover |
| MarketDataConsumers.MarketDataConsumer.CheckSnapshotSync | src/client/market_data_consumer.cpp:135-198 | the two loops over the queues take the protocol's recovery step |
| MarketDataConsumers.Consume | src/client/market_data_consumer.cpp:47-54 | a consumer object serving any run of callbacks is in the state the run theorems speak of |
| BestBidOffer.BboIsRight | src/client/market_order_book.cpp:79-112 | along any legal stream, with clears of a blank book anywhere in it, each cached side is the exact best price and total, or invalid; on a non-empty side it is invalid exactly when no update at its best has come since it became non-empty |
| BestBidOffer.BehindBest | src/client/market_order_book.cpp:15-16 | an update behind the best moves neither the best price nor the total at it |
| BestBidOffer.BehindLeavesQuote | src/client/market_order_book.cpp:15-16 | however many updates come strictly behind a side's best, on the other side or as trades, the side's cached quote and its best both stay |
| BestBidOffer.AdditionMovesQuote | src/client/market_order_book.cpp:88-112 | an addition at the best price adds its quantity to the quoted one in 32 bits; at a better price, or on an empty side, it alone is quoted |
| BestBidOffer.ChangeMovesQuote | src/client/market_order_book.cpp:88-112 | a revision at the best price moves the quoted quantity by as much, a cancel takes its quantity off, and the cancel of the only order there brings up the next price or no quote |
| BestBidOffer.QuotedIsBest | src/client/market_order_book.cpp:88-112 | the quoted price is one that rests and no resting price is better |
| BestBidOffer.SecondOrderIsQuoted | src/client/market_order_book.cpp:15-112 | of any two orders that come to a blank side: the second is quoted with the first when it joins it, alone when it betters it, and nothing is quoted when it comes behind |
| BestBidOffer.RunBbo | src/client/market_order_book.cpp:88-112 | the same for the stream of any history of the exchange's book |
| BestBidOffer.FirstOrderIsNotQuoted | src/client/market_order_book.cpp:15-16 | after any first order its side of the replica holds it and the cached quote is still invalid |
| BestBidOffer.FirstBuyerIsNotQuoted | src/client/market_order_book.cpp:15-16 | a buyer of 5 at 10 comes first: the best bid is 5 at 10, the cached one is invalid |
| MarketOrderBooks.MarketOrderBook.OnMarketUpdate | src/client/market_order_book.cpp:14-86 | the linked book becomes what the update says, unknown orders ignored, and the cache is refreshed only for the side and only when the update was at its best |
| MarketOrderBooks.MarketOrderBook.UpdateBBO | src/client/market_order_book.cpp:88-112 | recomputes the sides asked for from the best level, or invalidates an empty side |
| MarketOrderBooks.MarketOrderBook.SumRing | src/client/market_order_book.cpp:92-94 | the walk visits every order of the ring once and adds up the 32-bit quantities |
| MarketOrderBooks.BestLevel | src/client/market_order_book.cpp:90-94 | the head level's ring is the front of the side's cells, and an order is in it if and only if it is at the best price |
| BookFollower.RunIsManageable | src/client/market_order_book.cpp:18-48 | whatever the exchange's tables and pools had room for, the participant's have |
| BookFollower.FollowExchange | src/client/market_order_book.cpp:14-86 | a fresh linked replica fed with the stream of any history shows the exchange's book as published, cache included |
| BookFollower.ServeAndFollow | src/client/market_order_book.cpp:14-86 | both linked books side by side: the exchange serves any history, the participant follows its stream, and shows the exchange's book as published |
| LateFollower.ManageableIsHoused | src/client/market_order_book.cpp:18-48 | whatever stream a linked book could follow, its orders then leave a cell to spare in each pool, want no slot of the price table twice and keep the sides apart |
| LateFollower.LateJoinerIsManageable | src/client/market_order_book.cpp:18-72 | whatever a linked book could follow from the start, a fresh one can follow from a snapshot taken at any time: the clear, the orders by id, and what follows |
| LateFollower.LateJoinerBbo | src/client/market_order_book.cpp:79-112 | a late joiner's cached sides are exact or invalid by the same rule as anyone's |
| LateFollower.JoinLate | src/client/market_order_book.cpp:14-86 | a fresh linked book fed with a snapshot of any interleaving of the tickers' histories and then with what follows shows the exchange's book as published, cache included |
| FeedFollower.RunIsFollowed | src/client/market_data_consumer.cpp:56-198 | over any genuine run of callbacks, of a ticker a linked book could follow from the start: what is passed on can be followed if and only if the book is blank at every clear, its cache is then exact or invalid by the one rule, and outside recovery it means the published stream before the next expected number |
| FeedFollower.FollowFeed | src/client/market_data_consumer.cpp:47-198 | consumer object and linked book together over any such run, with any number of recoveries: the book ends up as the published stream says, cache included |
| LateStart.OneRecoveryJoins | src/client/market_data_consumer.cpp:56-198 | a genuine run that recovers once, from its first message on, passes on exactly a snapshot's body and the updates after it |
| LateStart.LateStarterFollows | src/client/market_data_consumer.cpp:56-198 | a run that recovers once, from its first message on, is one of these: of every ticker, what is passed on can be followed by a fresh linked book and means the published stream before the next expected number |
| LateStart.StartLate | src/client/market_data_consumer.cpp:47-198 | consumer object and linked book together for a participant that misses the start of the stream and recovers once |
| SpscQueues.EveryInterleaving | include/utils/spsc_queue.hpp:28-49 | under every interleaving of the atomic steps, values are taken in the order written, every read sees its own element even just after release, and the assertion never fails |
| SpscQueues.StepKeepsInv | include/utils/spsc_queue.hpp:28-49 | each single step of either thread keeps the ring well formed |
| SpscQueues.CountedMeansReadable | include/utils/spsc_queue.hpp:39-42 | once the counter was seen positive the index check cannot fail |
| SpscQueues.PollDelivers | include/utils/spsc_queue.hpp:39-42 | on a quiet ring a poll delivers the oldest unread element exactly when there is one |
| SpscQueues.InterruptedPollDelivers | include/utils/spsc_queue.hpp:39-42 | a poll that sees the counter positive gets the oldest unread element and keeps it, whatever the producer does between its two checks and after them |
| SpscQueues.FullRingLooksEmpty | include/utils/spsc_queue.hpp:33-40 | from any state, a poll after one more write finds an element if and only if the write did not fill the last cell, although the counter is positive either way |
| SpscQueues.OneMoreOverwrites | include/utils/spsc_queue.hpp:28-36 | from any state, the second of two more writes spares the oldest unread element if and only if the first did not fill the last cell |
| SpscQueues.SpscQueue.WriteNext | include/utils/spsc_queue.hpp:28-30 | writing through the reference to the next cell touches no unread element |
| SpscQueues.SpscQueue.UpdateNextWrite | include/utils/spsc_queue.hpp:33-36 | publishes the cell just written, index first and counter second |
| SpscQueues.SpscQueue.GetNextRead | include/utils/spsc_queue.hpp:39-42 | run undisturbed, returns the cell of the oldest unread element, or none exactly when the counter is zero |
| SpscQueues.SpscQueue.UpdateNextRead | include/utils/spsc_queue.hpp:45-49 | releases the oldest unread element, and its assertion holds |
| OrderServers.ChunkingDoesNotMatter | include/exchange/order_server.hpp:58-96 | reads of one socket in a row, however its bytes are cut, do what one read of all of them does, and leave the other sockets' bytes alone |
| OrderServers.ReadsMerge | include/exchange/order_server.hpp:58-96 | two reads in a row of one socket do what one read of both chunks does, whatever came before |
| OrderServers.DecodedAt | include/exchange/order_server.hpp:58-66 | request number k of a socket is what its bytes 38k up to 38k + 38 decode to |
| OrderServers.DecodedCount | include/exchange/order_server.hpp:58-96 | there is one request for every 38 whole bytes, and what stays in the buffer is what is behind them |
| OrderServers.SocketsDoNotMix | include/exchange/order_server.hpp:58-96 | for reads of any sockets, cut and interleaved in any way, the requests handled from a socket are those its own bytes decode to, and the server is where handling all of them in order takes it |
| OrderServers.ClientsInSequence | include/exchange/order_server.hpp:70-91 | over all sockets and reads each client's accepted requests are numbered 1 to k without a gap, all from one socket |
| OrderServers.HandledExactly | include/exchange/order_server.hpp:70-91 | after any requests in any order each client is bound to the first socket that spoke for it, whatever became of that request, and accepted is exactly what came from there in sequence |
| OrderServers.ReadsHandledExactly | include/exchange/order_server.hpp:58-91 | the same for any reads of any sockets |
| OrderServers.FirstSocketIs | include/exchange/order_server.hpp:70-73 | the socket a client is bound to is that of its first request |
| OrderServers.OutOfTurnStillBinds | include/exchange/order_server.hpp:70-91 | a client that speaks out of turn from one socket, then in turn from another, has neither accepted and stays with the first |
| OrderServers.InOrderIsAccepted | include/exchange/order_server.hpp:70-91 | a client that keeps to one socket and numbers without a gap has every request accepted, in order |
| OrderServers.OrderServer.RecvCallbacks | include/exchange/order_server.hpp:53-97 | handles every whole request in the socket's buffer in order and shifts the rest to its front |
| OrderServers.OrderServer.OnReadable | include/exchange/order_server.hpp:53-97 | a read followed by its callback takes exactly the step the run theorems speak of |
| OrderServers.OrderServer.HandleRequest | include/exchange/order_server.hpp:70-91 | binds a client to its first socket, and accepts only from it and only the expected number |

## Left out

- Sockets, epoll, multicast groups, threads, sleeps, clocks, receive times, logging and the performance macros: input and timing. Arrivals are arbitrary sequences of callbacks and reads.
- The `toString` functions and the sanity printers: formatting.
- `OrderManager`, the trading algorithms, `PositionKeeper`, `RiskManager`, `FeatureEngine`: their run-level claims are near empty or floating point.
- The client `OrderGateway`'s framing, and the responses the order server sends: the receive side of the server is modelled instead.
- `FifoSequencer`: a library sort by receive time; only what is handed to it is modelled.
- CLEAR on a non-empty linked participant book (src/client/market_order_book.cpp:55-72): the loops there do not advance and the heads are not reset. The linked class demands an empty book; the pure replica takes CLEAR to empty it, and the recovery theorems are about that meaning.
- Raw memory layout and packed structs: a wire request is 38 bytes and an arbitrary decoder of them; market-data messages arrive whole.
- Wrap-around of 64-bit ids, priorities and sequence numbers: unbounded here. The 32-bit wrap of the cached best quantity is modelled.
- Order quantities below 2^32 are not demanded of requests; only the cached sum depends on the width.
- The two queues of the consumer are ordered maps in the program; here they are their entries in ascending order.
- The order-id and client-order-id tables are arrays in the program; here they are maps without the null entries.
- SpscQueues.SpscQueue.GetNextRead: the class runs one operation at a time; interference between the threads is the subject of SpscQueues.EveryInterleaving and SpscQueues.InterruptedPollDelivers.
- OrderServers.ClientsInSequence: a client id outside the tables is undefined behaviour in the program; the pure step ignores it and the class demands there is none.
