# A verified model of the trading exchange

The exchange keeps, for every ticker, a limit order book: two maps from price to level, each level an
intrusive doubly linked queue of orders, and a hash index from order id to node. New orders sweep the opposite
side best price first and oldest first; what is left rests. Every change is told to the market as an event, and
each client rebuilds the depth of the books from those events. The server logs through a ring buffer with many
producers and one consumer, and sends through queues that allow one outstanding write.

The project models these parts at two levels and connects them.

* **Objects.** `Orders`, `Levels`, `FifoMatcher`, `OrderBooks`, `OrderBookManagers` and `ClientFeedHandlers` are
  classes with the source's fields, updated in place by methods with the source's loops and branches. Each method
  is proved against a function of the state before: `FIFOMatch` against `Sweep`, `OrderBook.AddOrder`,
  `ModifyOrder` and `CancelOrder` against `Add`, `Modify` and `Cancel`, the manager against the routing functions,
  the client's handlers against `OnAdd`, `OnCancel`, `OnModify` and `OnFill`. `Valid` is the shape of the heap:
  every level is a well-formed doubly linked list with the right head and tail, no level is empty, every node
  points to the level of its own price and side, and the index holds exactly the nodes on the lists.
* **Values.** A book seen as two queues (`BookSpec`), the exchange with its id generator (`ExchangeSpec`), the
  client's tables (`ClientFeed`). What the exchange promises is proved here, for every request and every run:
  price-time priority, uncrossed books, the ledger, and the agreement of server and client.
* **Both.** `EndToEnd` runs the exchange's objects and a client's objects together over any list of messages, and
  proves them to be, at the end, what the runs on values say.
* **Interleavings.** The ring buffer (`LogQueue`) and the one-message-at-a-time writer (`WriteQueues`) are state
  machines over their steps, with lemmas over every run.

## Where the code misses its intent

The model follows the code. Where the code departs from what it evidently means, the departure is stated with an
input that shows it and the exact condition under which it shows.

* A raise adds the requested quantity on top of twice the current one (`src/server/order/orderbook.cpp:125`).
  `BookLaws.RaiseReachesRequest`: the requested quantity comes out only from 0 or from 2^31. `RaiseExample` shows it.
* Both fill messages of a match carry the id of the incoming order (`src/server/order/orderbook.cpp:87`), which no
  client knows yet. `Build` switches this and the raise between the code (`AS_WRITTEN`) and the intent; the
  classes are proved at `AS_WRITTEN`, the laws at every `Build`.
* Because of these two, and because fills travel in 16 bits and clients read quantities as signed words, server
  and client can part. `ReplicaRuns.ReplicaAgreement` says for every `Build` when: a run keeps them in agreement if and
  only if the messages of every request tell what it did. `ReplicaAsWritten.AgreementAsWritten` says it for the code,
  from requests and books alone: nothing trades, no quantity is raised, none exceeds a signed word. `MatchMisleads`,
  `WideFillMisleads` and `SignedWordMisleads` are runs that go wrong; `IntendedAgreement` is what the intent would give.
* `book_lvl` is a reference, so going on to the next level assigns through the level just erased
  (`include/server/matching/fifomatching.hpp:47`). The classes go on to the next level, which is the intent.
  `AsWritten.DefinedIffBestLevelSuffices` says when the code itself stays defined; `DeadReferenceExample` shows it.
* A level is erased when the 16-bit count of its non-empty orders is zero (`include/server/order/level.hpp:9-18`), which
  is not the same as an empty list. The classes require of a match that the count is right where it ends
  (`LevelCounts.CountsRight`), and no more; `AsWritten.CountsRightInBestLevel` says order by order when that is, and
  `OrphanExample` what happens otherwise. Fewer than 2^16 orders, none of them empty, are enough (`RunCounts.FewEntered`).
* The test for a possible match reads the best price before it knows there is one
  (`src/server/order/orderbook.cpp:71-77`). `AsWritten.TestDefinedIffOrders`: it is defined exactly when the other side
  has orders, and so not on the opening book. `AsWritten.AddDefinedIff` puts this, the reference and the count together:
  it is the exact condition for the code to add an order as `Add` says.
* The fill of the incoming order carries the resting order's user id
  (`include/server/matching/fifomatching.hpp:105`). `AsWritten.TakerFillsOwnIff`: the incoming order's fills carry its
  own user exactly when every resting order it reaches is that user's. `TakerFillExample` shows it.
* The guard of the ring buffer compares masked positions (`include/server/logger.hpp:98`).
  `LogQueue.AsWrittenSafeIff`: it makes all runs with at most n outstanding tickets safe if and only if there
  are at least n slots. With the intended guard every run is safe. `GuardsDiffer` says where the two differ;
  `OverrunHarms` and `HeldBackExample` show it both ways.
* A failed write leaves a non-empty queue with the flag down (`src/server/rpc/marketdatadispatcher.cpp:61-65`).
  `WriteQueues.InOrderIff`: order is kept exactly in the runs where no completion fails with messages waiting;
  `FailureLosesAMessage` shows it.
* A book index has 16 bits (`include/client/clientfeedhandler.hpp:12`). `ClientFeedHandler.AddOrder`: the client's tables
  stay right exactly while there is an index left, and the ticker after that is given another one's book.

## Model

| member | source | states |
|---|---|---|
| Orders.Order.IncreaseQty | include/info/order.hpp:54 | the current quantity grows, in unsigned 32 bits |
| Orders.Order.DecreaseQty | include/info/order.hpp:55-63 | throws exactly when asked for more than there is, and then changes nothing |
| Levels.Level.GetLevelOrderCount | include/server/order/level.hpp:9-18 | the list walk counts the orders with a quantity, modulo 2^16 |
| Levels.Level.GetLevelOrderQuantity | include/server/order/level.hpp:19-27 | the list walk adds up the quantities, modulo 2^32 |
| LevelTotals.LevelIffOrders | include/server/order/orderbook.hpp:112-129 | a side has a level at a price exactly when an order rests there |
| LevelTotals.LevelQuantity | include/server/order/level.hpp:19-27 | the walk over any level of a side gives the quantity resting at its price in the side's queue |
| Levels.SideBook.NodeRemoved | src/server/order/orderbook.cpp:160-177 | relinking the neighbours of a node leaves every list of the side well formed |
| Levels.SideBook.NodeInserted | src/server/order/orderbook.cpp:57-68 | so does linking a new node at the end of its level |
| FifoMatcher.MatchResult.AddFill | include/server/matching/matchresult.hpp:11-17 | the log grows by one record, whose quantity is cut to 16 bits |
| FifoMatcher.AddFills | include/server/matching/fifomatching.hpp:84-108 | a match logs two records at the resting price: the resting order's, full when it has nothing left, and the incoming one's, full when that has |
| FifoMatcher.CountIsExact | include/server/matching/fifomatching.hpp:43-45 | on every linked side, whatever quantities rest there: when the test for erasing a level holds, and when that is the emptiness of its list |
| LevelCounts.CountTellsIff | include/server/order/level.hpp:9-18 | without empty orders the test errs exactly on lists of a positive multiple of 2^16 |
| LevelCounts.EmptyOrderUncounted | include/server/order/level.hpp:13 | an empty order alone on its level is not counted, and the level would go |
| LevelCounts.FewOrdersCountRight | include/server/order/level.hpp:9-18 | with fewer than 2^16 orders, none of them empty, the test is right for every incoming order |
| FifoMatcher.RemoveOrderFromBook | include/server/matching/fifomatching.hpp:74-83 | the first node of the best level leaves its list and the index; the lists stay well formed |
| FifoMatcher.FillFront | include/server/matching/fifomatching.hpp:56-59 | one trade of the lesser quantity; neither decrease throws; nothing else in the book changes |
| FifoMatcher.MatchFront | include/server/matching/fifomatching.hpp:56-70 | one round of the inner loop: the front order is used up or the incoming one is, and used-up orders and levels go |
| FifoMatcher.OrderFullyMatchedInLevel | include/server/matching/fifomatching.hpp:52-73 | the inner loop ends, having matched the level or the order to its end as the sweep does |
| FifoMatcher.EraseAndAdvance | include/server/matching/fifomatching.hpp:43-48 | a level left by the inner loop is empty and is erased; the next level, as it is meant, is the best of the rest |
| FifoMatcher.MatchLevels | include/server/matching/fifomatching.hpp:35-48 | the outer loop ends, one level less each round, having carried out the whole sweep |
| FifoMatcher.FIFOMatch | include/server/matching/fifomatching.hpp:28-50 | wherever the count is right at the end: queue, index and incoming order end up as the greedy sweep of the queue says, the side stays valid, and the log tells what happened to the queue (`FillRecords.LogTells`) |
| FillRecords.HitIffReached | include/server/matching/fifomatching.hpp:35-72 | an order is hit exactly when it is within the limit and not everything is taken before its turn |
| FillRecords.FillLogTells | include/server/matching/fifomatching.hpp:84-108 | two records for each order reached and no others: its id and the incoming one's, at its price, for what it lost, full exactly when it no longer rests and when the incoming order ends there |
| FillRecords.PartialFillExample | include/server/matching/fifomatching.hpp:86-104 | of a buy of 4 against a sell of 10, the buy's record is full and the sell's is not |
| OrderBooks.GetSideLevel | include/server/order/orderbook.hpp:112-129 | finds or makes the level of a price without changing any queue |
| OrderBooks.LinkAtTail | src/server/order/orderbook.cpp:57-68 | the node stands at the end of its level's list |
| OrderBooks.PlaceLimitInBookLevel | src/server/order/orderbook.cpp:43-69 | throws exactly for an id that is indexed; otherwise a copy of the order rests behind all orders of no worse price, and is indexed |
| OrderBooks.Unlink | src/server/order/orderbook.cpp:160-177 | in each of the four list positions the queue loses that node only; its level goes exactly when it was alone |
| OrderBooks.OrderBook.PossibleIsTrade | src/server/order/orderbook.cpp:71-77 | the test for a possible match holds exactly when the sweep trades |
| OrderBooks.OrderBook.CommunicateMatchResults | src/server/order/orderbook.cpp:79-104 | one acknowledgement and one fill message per record, in order, both under the incoming order's ids |
| OrderBooks.OrderBook.PlaceOrderInBook | include/server/order/orderbook.hpp:142-147 | the order is inserted on its side; the book stays valid |
| OrderBooks.OrderBook.AddOrderOn | include/server/order/orderbook.hpp:130-140 | matched, placed and announced as the sweep says; the rest is announced with what is left of it |
| OrderBooks.OrderBook.AddOrder | src/server/order/orderbook.cpp:23-40 | on any valid book where the count is right at the end: the book, verdict and messages of `Add`; refused exactly for an id that is indexed |
| OrderBooks.OrderBook.CancelOrder | src/server/order/orderbook.cpp:148-180 | on any valid book: the book, verdict and messages of `Cancel`; refused for an id not indexed, or another user's, with that reason |
| OrderBooks.OrderBook.ProcessModifyErrors | src/server/order/orderbook.cpp:115-146 | the reasons of refusal are exactly those that hold of the order, each once, in the order in which they are sent |
| OrderBooks.OrderBook.ChangeQty | src/server/order/orderbook.cpp:123-130 | one quantity changes in place; queue, lists and index do not |
| OrderBooks.OrderBook.ModifyOrder | src/server/order/orderbook.cpp:106-134 | on any valid book, with the same need only where the price changes: the book, verdict and messages of `Modify`; refused for an id not indexed, or for exactly the reasons that hold of the order |
| OrderBookManagers.OrderBookManager.AddOrder | src/server/order/orderbookmanager.cpp:13-27 | not found without a book for the ticker; otherwise that book's verdict, and all other books are untouched |
| OrderBookManagers.OrderBookManager.ModifyOrder | src/server/order/orderbookmanager.cpp:29-40 | trivial for quantity zero before any book is looked up; then the same |
| OrderBookManagers.OrderBookManager.CancelOrder | src/server/order/orderbookmanager.cpp:42-49 | not found without a book for the ticker; otherwise that book's verdict, and all other books are untouched |
| OrderBookManagers.OrderBookManager.CreateOrderBook | src/server/order/orderbookmanager.cpp:51-78 | opens an empty book exactly when the ticker has none |
| Matching.TakerDoneLast | include/server/matching/fifomatching.hpp:60-69 | only the last trade can fill the incoming order, and does so exactly when nothing is left |
| MatchingLaws.TradesFollowQueue | include/server/matching/fifomatching.hpp:52-73 | the orders hit are a prefix of the queue; all but the last are filled completely |
| MatchingLaws.RestFollowsTrades | include/server/matching/fifomatching.hpp:28-83 | everything behind the last order hit is untouched, and that order keeps what it did not trade |
| MatchingLaws.MaximalExecution | include/server/matching/fifomatching.hpp:28-73 | an order trades exactly the lesser of its quantity and all that rests within its limit |
| MatchingLaws.FillPrices | include/server/matching/fifomatching.hpp:84-114 | fills are at resting prices within the limit and never get better |
| MatchingLaws.AllocationExists | include/server/matching/fifomatching.hpp:28-83 | an allocation that respects price-time priority always exists |
| MatchingLaws.SweepIsTheAllocation | include/server/matching/fifomatching.hpp:28-83 | whatever allocation respects price-time priority, the sweep is it; so it is the only one |
| MatchingLaws.SweepAdditive | include/server/matching/fifomatching.hpp:28-83 | quantity x + y at once takes from each order what x and then y take, and leaves the same |
| AsWritten.DefinedIffBestLevelSuffices | include/server/matching/fifomatching.hpp:28-50 | the code's match stays defined exactly when the side has orders and none is met or the best level can fill the order; it then trades as the sweep does, and does all of it exactly when the count is right |
| AsWritten.CountsRightInBestLevel | include/server/matching/fifomatching.hpp:61-66 | the count is right exactly when the list is used up, or those that keep a quantity are not a multiple of 2^16 |
| AsWritten.OrphanExample | include/server/matching/fifomatching.hpp:64-66 | a level goes with an empty order still on its list |
| AsWritten.TestDefinedIffOrders | src/server/order/orderbook.cpp:71-77 | the test for a match is defined exactly when the other side has orders, and then says whether anything trades |
| AsWritten.AddDefinedIff | include/server/order/orderbook.hpp:130-140 | the exact condition for the code to add an order as `Add` says |
| AsWritten.TakerFillsOwnIff | include/server/matching/fifomatching.hpp:98-107 | the incoming order's fills carry its own user exactly when all orders it reaches are that user's |
| AsWritten.TakerFillExample | include/server/matching/fifomatching.hpp:105 | a fill of user 2's order carries user 1 |
| AsWritten.DeadReferenceExample | include/server/matching/fifomatching.hpp:47 | an order over two levels does not stay defined |
| Verdicts.AddVerdict | src/server/order/orderbook.cpp:23-31 | a new order is refused exactly for an id that rests, with that reason, and then nothing happens |
| Verdicts.CancelVerdict | src/server/order/orderbook.cpp:148-158 | a cancel is refused as not found exactly when no side holds the id, and as another user's exactly when it rests under one |
| Verdicts.ModifyReasons | src/server/order/orderbook.cpp:109-146 | a modification is refused as not found exactly when no side holds the id; otherwise for exactly the reasons that hold of the resting order, each once and in order |
| BookSpec.FillMessages | src/server/order/orderbook.cpp:79-104 | one fill message per record, with its ticker and quantity, under its own id or the incoming order's |
| Verdicts.AddPlaces | include/server/order/orderbook.hpp:130-140 | an accepted order trades all it can, and what is left rests under its id, user and price on its side, or nothing does |
| Verdicts.RepricePlaces | src/server/order/orderbook.cpp:131-133 | an accepted change of price cancels first and then does the same at the new price and quantity |
| Verdicts.StepVerdict | src/server/order/orderbookmanager.cpp:13-78 | the answer to every message from the books before it; what reaches no book changes nothing; only new orders use up ids |
| Verdicts.EnterPlaces | src/server/rpc/orderentrystreamconnection.cpp:149-184 | an accepted message enters the order as it was sent, under the next id, in the book of its ticker only |
| BookLaws.AddKeepsUncrossed | include/server/order/orderbook.hpp:131-140 | no order rests at a price that crosses the other side |
| BookLaws.GoodIffSafe | src/server/order/orderbook.cpp:23-180 | every request keeps order, distinct ids and an uncrossed book, and positive quantities exactly when `Safe` |
| BookLaws.AddAdditive | include/server/order/orderbook.hpp:130-140 | sending a + b, or a and then b under another id, does the same to the opposite side and to each resting order |
| BookLaws.CancelIsDeletion | src/server/order/orderbook.cpp:148-180 | accepted exactly from the owner; that order goes, the others keep quantities and order |
| BookLaws.CancelUndoesAdd | src/server/order/orderbook.cpp:148-180 | an order that met no match, once cancelled, leaves the book as it was |
| BookLaws.ModifyVerdict | src/server/order/orderbook.cpp:109-122 | accepted exactly from the owner, on the right side and when something changes; a refusal changes nothing |
| BookLaws.ModifyInPlace | src/server/order/orderbook.cpp:123-130 | at the same price every order keeps its place and all others their quantity; when the requested quantity comes out |
| BookLaws.RaiseReachesRequest | src/server/order/orderbook.cpp:124-125 | the code's raise gives twice the current quantity plus the requested one, which is the requested one only from 0 or 2^31 |
| BookLaws.RaiseExample | src/server/order/orderbook.cpp:124-125 | asking for 200 in place of 100 leaves 400 |
| BookLaws.RepriceIsCancelThenAdd | src/server/order/orderbook.cpp:131-133 | an accepted change of price is a cancel and then an accepted new order with the same id |
| Runs.ReachableIsGood | src/server/order/orderbook.cpp:23-180 | over every run both sides stay in price-time order, without repeated ids or empty orders, and uncrossed |
| Runs.NeverCrossed | include/server/order/orderbook.hpp:131-140 | over every run whatever, the best bid stays below the best ask |
| Runs.Ledger | include/info/order.hpp:54-63 | over every run and for each id: entered plus net changes equals filled plus withdrawn plus resting |
| Runs.BoughtIsSold | include/server/matching/fifomatching.hpp:55-72 | over every run the total bought and the total sold are each all that was traded |
| Priority.TimePriority | include/server/matching/fifomatching.hpp:55-83 | over every run, while neither is cancelled or repriced, the later order is not filled before the earlier one is filled completely |
| ClientFeed.DepthIsSumOfOrders | include/client/clientfeedhandler.hpp:17-75 | after any valid events each depth is the sum of the open orders there, and a price is stored exactly when that is positive |
| ClientFeedHandlers.ClientOrderBook.AddToBook | include/client/clientorderbook.hpp:18-21 | one side of one book grows at one price |
| ClientFeedHandlers.ClientOrderBook.RemoveFromBook | include/client/clientorderbook.hpp:22-30 | one side of one book shrinks at one price, which is erased at zero or below; an unknown price is ignored |
| ClientFeedHandlers.ClientFeedHandler.AddOrder | include/client/clientfeedhandler.hpp:17-28 | orders, ticker table and books move as the client's view does on an added order, exactly while a 16-bit index is left for the ticker |
| ClientFeedHandlers.ClientFeedHandler.CancelOrder | include/client/clientfeedhandler.hpp:29-40 | the same on a cancelled order |
| ClientFeedHandlers.ClientFeedHandler.ModifyOrder | include/client/clientfeedhandler.hpp:41-61 | the same on a modified order |
| ClientFeedHandlers.ClientFeedHandler.FillOrder | include/client/clientfeedhandler.hpp:62-75 | the same on a filled order |
| Replica.PlaceMirrored | include/client/clientfeedhandler.hpp:17-28 | an announced order keeps a side of the client right when its quantity fits a signed word, and otherwise shows a wrong depth |
| Replica.RemoveMirrored | include/client/clientfeedhandler.hpp:29-40 | an announced cancel keeps a side of the client right |
| Replica.ResizeMirrored | include/client/clientfeedhandler.hpp:41-61 | an announced change keeps it right when it says the quantity the order got, and otherwise shows a wrong depth |
| Replica.SweepMirrored | include/client/clientfeedhandler.hpp:62-75 | the fills of a sweep keep it right when each is told in full, and otherwise show a wrong depth |
| ReplicaBook.AddMirrored | src/server/order/orderbook.cpp:79-104 | the messages of a new order keep the client right exactly when faithful, and touch no other ticker |
| ReplicaBook.ModifyMirrored | src/server/order/orderbook.cpp:106-134 | so do those of a modification, repriced orders included |
| ReplicaRuns.StepIsApply | src/server/rpc/orderentrystreamconnection.cpp:149-166 | a message to the exchange is one request to one book; exactly a new order takes a new id |
| ReplicaRuns.StepMirrors | src/server/order/orderbook.cpp:79-180 | any message keeps all books and tables in agreement when faithful, and breaks it when not |
| ReplicaRuns.ReplicaAgreement | src/server/order/orderbook.cpp:79-134 | from the opening on, server and client agree at every ticker, side and price after every message exactly when all messages are faithful |
| ReplicaRuns.IntendedAgreement | include/client/clientfeedhandler.hpp:17-75 | with both intents in place and quantities below 2^16, every run keeps them in agreement |
| ReplicaAsWritten.AddAsWritten | src/server/order/orderbook.cpp:87 | as written, a new order is faithful exactly when it trades with nobody and fits a signed word |
| ReplicaAsWritten.ResizeAsWritten | src/server/order/orderbook.cpp:123-128 | as written, a change at the same price is faithful exactly when it lowers to what fits a signed word |
| ReplicaAsWritten.FaithfulIffPlain | src/server/order/orderbook.cpp:79-180 | as written, for every request, reprices included: faithful exactly when it trades with nobody, lowers, cancels or is refused |
| ReplicaAsWritten.AgreementAsWritten | src/server/order/orderbook.cpp:79-180 | as written, server and client agree all along exactly in the runs of such requests |
| ReplicaAsWritten.OneMatchAgrees | include/server/matching/matchresult.hpp:12 | after one full match they agree exactly when the fill carries the resting order's id and fits 16 bits |
| ReplicaAsWritten.WideFillMisleads | include/server/matching/matchresult.hpp:12 | even as intended, a match of 2^16 makes them part |
| ReplicaAsWritten.SignedWordMisleads | include/client/marketdatatypes.hpp:14 | even as intended, an order of 2^31 makes them part |
| ReplicaAsWritten.MatchMisleads | src/server/order/orderbook.cpp:87 | as written, one match makes them part |
| RunCounts.ApplySize | src/server/order/orderbook.cpp:23-180 | a new order adds at most one to a book, no other request adds any |
| RunCounts.FewEntered | include/server/order/level.hpp:9-18 | fewer than 2^16 new orders, none of quantity zero left to rest, keep the counts right over the whole run |
| EndToEnd.ValidIsWellFormed | src/server/order/orderbook.cpp:43-69 | a valid book of linked lists is in price-time order, and no id rests twice |
| EndToEnd.OrderEntry.ProcessEntry | src/server/rpc/orderentrystreamconnection.cpp:149-166 | one message to the objects of the exchange is one step of the exchange, with its messages |
| EndToEnd.Deliver | include/client/clientfeedhandler.hpp:17-75 | the client's objects end up as its view does on the messages |
| EndToEnd.Serve | src/server/rpc/orderentrystreamconnection.cpp:149-166 | over any run of messages both sets of objects are those of the run on values |
| EndToEnd.ServeSafely | src/server/order/orderbook.cpp:23-180 | with fewer than 2^16 new orders, none of quantity zero left to rest, the books end up good, and after plain messages the client's depth is theirs |
| Masks.BitAndBits | include/server/logger.hpp:97 | a bit is set in the masked value exactly when it is set in both |
| Masks.PowerOfTwoTest | include/server/logger.hpp:86 | the constructor's test accepts exactly the powers of two |
| Masks.MaskIsModulo | include/server/logger.hpp:97 | for those, masking a ticket is its remainder |
| LogQueue.WindowSlots | include/server/logger.hpp:97 | tickets less than a round apart have different slots |
| LogQueue.StepKeeps | include/server/logger.hpp:95-115 | every step of every thread keeps the invariant, constructs in raw memory only, and reads whole entries only |
| LogQueue.IntendedIsSafe | include/server/logger.hpp:95-115 | in every interleaving no slot is overwritten or shared, and the log is what the producers submitted, in ticket order, each once and whole, one entry for each write |
| LogQueue.AsWrittenSafeIff | include/server/logger.hpp:98 | the guard as written makes all runs with at most n outstanding tickets safe in that sense exactly when n does not exceed the slots |
| LogQueue.GuardsDiffer | include/server/logger.hpp:98 | where the guard as written holds back a ticket whose slot is free, and where it lets one through a round ahead |
| LogQueue.HeldBackExample | include/server/logger.hpp:98 | two slots, one entry consumed: the third ticket is held back from a free slot |
| LogQueue.OverrunHarms | include/server/logger.hpp:98 | one ticket more than slots, and two producers construct in one slot |
| LogQueue.NeverStuck | include/server/logger.hpp:95-115 | the oldest unconsumed ticket's producer is never held by the guard, or the consumer can step |
| LogQueue.Drain | include/server/logger.hpp:152-160 | every run goes on, without new tickets, to a state whose log is everything that was submitted, in order |
| WriteQueues.WriteQueue.Write | src/server/rpc/marketdatadispatcher.cpp:50-56 | the message is last in the queue, and is written at once exactly when nothing is in progress |
| WriteQueues.WriteQueue.WriteCompleted | src/server/rpc/marketdatadispatcher.cpp:58-66 | the completed message leaves the queue, which is never empty then; the next is written or the flag goes down |
| WriteQueues.CompletionInOrderIff | src/server/rpc/orderentrystreamconnection.cpp:137-147 | a completion keeps order exactly when it succeeded or nothing waits |
| WriteQueues.InOrderIff | src/server/rpc/orderentrystreamconnection.cpp:127-147 | over every run, order is kept throughout exactly when no completion fails with messages waiting |
| WriteQueues.WrittenOnceInOrder | src/server/rpc/orderentrystreamconnection.cpp:127-147 | in such runs the messages completed and those queued are the messages submitted by the run, in order; each is written once, and all are once nothing is in progress |
| WriteQueues.QueueDrains | src/server/rpc/marketdatadispatcher.cpp:58-66 | after such a run as many successful completions as messages queued write everything the run submitted |
| WriteQueues.FailureLosesAMessage | src/server/rpc/marketdatadispatcher.cpp:61-65 | after a failure with a message waiting, one message is never written and another twice |

## Left out

- FifoMatcher.FIFOMatch: goes on to the next level where the code assigns through a dead reference, and requires the count to be right where the match ends; what the code does otherwise is stated on values, in `AsWritten`, because it leaves no valid lists to speak of.
- FifoMatcher.EraseAndAdvance: the same advance to the next level.
- FifoMatcher.MatchLevels: the same advance, and the same need of the count.
- FifoMatcher.MatchFront: the same need of the count.
- FifoMatcher.OrderFullyMatchedInLevel: the same need of the count.
- OrderBooks.OrderBook.AddOrderOn: the same need of the count.
- OrderBooks.OrderBook.AddOrder: the same need of the count; `AsWritten.AddDefinedIff` is the whole condition.
- OrderBooks.OrderBook.ModifyOrder: the same need of the count, where the price changes.
- OrderBookManagers.OrderBookManager.AddOrder: the same need of the count.
- OrderBookManagers.OrderBookManager.ModifyOrder: the same need of the count.
- OrderBooks.OrderBook.PossibleIsTrade: tests for an empty side first; that the code's test is undefined there is `AsWritten.TestDefinedIffOrders`.
- ClientFeedHandlers.ClientFeedHandler.ModifyOrder: client quantities are unbounded integers, so signed overflow in the client's own arithmetic, which has no meaning in the code, is not modelled.
- EndToEnd.Serve: assumes no more than 2^16 tickers, the indexes a client has.
- LogQueue.IntendedIsSafe: steps are sequentially consistent and flags start down; memory orderings and the uninitialised flags of `malloc` are not modelled. Tickets are unbounded rather than 64-bit.
- WriteQueues.WriteQueue.WriteCompleted: the writer calls back once for each write; gRPC itself is not modelled.
- Locks: each request to a book is one atomic step; the unchecked result of `try_to_lock` is not modelled.
- Acknowledgements other than those of fills, rejection messages beyond their reasons, timestamps, connections and log text.
- Delivery of market data is in order and without loss; the UDP transport and the layout of its messages are not modelled.
- Looking up orders and subscriptions, and what they return when nothing is found.
- Connection lifetimes, completion queues, thread pools and signals of the server; the client's terminal interface.
