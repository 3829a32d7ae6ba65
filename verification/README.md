# HFTToolset in Dafny

A model of the trading core of HFTToolset: the order-level book and its matching, the simple
book, the multi-symbol engine with its risk checks, the lock-free ring buffer, the object pool,
and the latency histogram; and proofs of what each of them is for.

`dafny verify dfyconfig.toml` checks the whole project.

## How it is organised

| file | what it holds |
|---|---|
| `Types.dfy` | orders, trades, reports, enumerations |
| `PriceTime.dfy` | the reference meaning of matching: one greedy walk over a flat price-time list, and its closed form by prefix sums |
| `BookSpec.dfy` | the order-level book as two flat lists and a tape; submit, cancel, replace; the book invariant |
| `BookInvariant.dfy` | every operation keeps the invariant |
| `BookTheorems.dfy` | what one request does: fill-or-kill, reports, round trips, queue position |
| `BookRuns.dfy` | whole runs: reachable books, time priority, conservation |
| `Ladder.dfy`, `Matching.dfy` | price ladders of queues against flat lists; one matching step; the id index |
| `BookQueries.dfy` | depth, best prices, mid and micro price |
| `L3Book.dfy` | the order-level book object: ladders, index and counters updated in place |
| `SimpleSpec.dfy`, `SimpleBook.dfy` | the simple book, as values and as an object, and its agreement with the order-level book |
| `RiskSpec.dfy`, `RiskEngine.dfy` | risk checks as a function and as an object; position and rate limits |
| `EngineSpec.dfy`, `MatchingEngine.dfy` | the engine as a value and as an object; limits and cancel routing over whole runs |
| `EngineTheorems.dfy` | what one engine request does, seen from outside; recorded positions over whole runs |
| `RingBuffer.dfy`, `MemoryPool.dfy` | the two lock-free structures: interleaved atomic steps, then the object |
| `Histogram.dfy` | buckets against order statistics |

Each object is proved against a function of its old abstract state (`ensures Reply(View(), rpt) ==
Submit(old(View()), o, ts)` and the like). The function is simpler than the code: no price levels,
no iterators, no index, no counters, no early exits. The lemmas then say what the function does.

Conventions. Quantities, prices and ids are unbounded integers; the one place where the width
matters, the unsigned subtraction in the rate limiter, is written out. Times and clock readings are
parameters. A list iterator kept in the id index is modelled by side, price and id, which name its
node. Trade callbacks are recorded in a ghost tape. Every lemma turns automatic induction off, so
every induction in a proof is visible; `hide` statements only keep definitions away from proofs that
do not need them.

Standing assumptions: callbacks do not re-enter; risk limits are not negative and do not change
during a run; clients of the pool free only what they hold. Quantities of submissions and replaces
are arbitrary wherever a statement does not say otherwise: whole-run statements hold for every
sequence of requests.

## Where the code and its documentation part

- An unfillable fill-or-kill order is documented as rejected. A market fill-or-kill order is
  reported New with its whole quantity open (`BookTheorems.UnfillableFokIsRejectedIffLimit`).
- The unfilled part of a market order is reported as open although nothing rests; exactly when an
  "open" report is true is `BookTheorems.OpenQuantityRestsIff`. Every market order that meets an
  empty book shows both failures (`BookTheorems.MarketOrderMeetsNothing`).
- Nothing checks the new quantity of a replace: without a positive one the resting order is deleted
  and the report is Filled or New (`BookTheorems.ReplaceIsDeleteThenSubmit`).
- Stored queue positions are documented as each order's position. They are an upper bound: matching
  removes orders from the front without renumbering. When they stay exact is
  `BookTheorems.SubmitKeepsPositionsIff` for one submission and `BookRuns.RunKeepsPositionsIff` for
  a run; two orders at one price sharing a position is
  `BookRuns.StoredPositionsCollide`.
- Cancel routing loses a resting order when an order of the same id is sent to another symbol and is
  neither filled nor rejected there, even one that can never rest; the exact condition on the state
  before the call is `EngineSpec.NewOrderKeepsRoutingIff`, a failing run is
  `EngineSpec.MarketOrderTakesRoute`.
- The rate limit is a bound on every window only for submit times in order. After a step back it fails
  exactly when the limiter lets the order into a window that already holds the limit
  (`RiskSpec.LimitHoldsIff`); for every step back that, with the window, stays inside the 64-bit range
  there is a history where it does (`RiskSpec.SafeIffInOrder`). It can fail because the limiter forgets stamps that are not older than
  the window, which it does exactly when the order is stamped before the oldest stamp kept and the
  wrapped age exceeds the window (`RiskSpec.DropsRecentIff`, `RiskSpec.LimiterForgetsOnStepBack`); for
  a full limiter and a step back of at most a window that is the only way
  (`RiskSpec.FullLimiterHoldsIff`). It can also fail with nothing forgotten
  (`RiskSpec.LimitFailsWithoutForgetting`).
- The simple book accepts a second order under an id in use and an order without quantity, and is
  consistent afterwards exactly when the id was new and the quantity positive
  (`SimpleLimitBook.OrderBook.AddOrder`); `SimpleLimitBook.AddTwice` breaks it.
- The ring buffer's size is two loads. It is an upper bound for the producer and a lower bound for the
  consumer; for a third thread it can be wrong either way, exactly when is
  `RingBuffer.WatcherIsRightIff`, an example `RingBuffer.WatcherMisreads`.

## Model

| member | source | states |
|---|---|---|
| PriceTime.HitConserves | src/orderbook/l3_order_book.cpp:285-306 | a partial fill takes exactly its quantity, displayed before hidden; an iceberg that used up its face shows the next 100; nothing else changes |
| PriceTime.WalkClosedForm | src/orderbook/l3_order_book.cpp:239-333 | greedy matching in closed form: trade k is with the k-th order of the eligible prefix for min(available, quantity minus everything better), and the residue is the rest with at most its front part-filled |
| PriceTime.WalkExecutes | src/orderbook/l3_order_book.cpp:239-333 | executed quantity is min(order quantity, eligible liquidity) |
| PriceTime.WalkReaches | src/orderbook/l3_order_book.cpp:243-262 | the k-th order trades iff it is eligible and everything better is less than the incoming quantity |
| PriceTime.WalkConserves | src/orderbook/l3_order_book.cpp:277-298 | traded volume equals what the incoming order gained and what the resting side lost |
| PriceTime.WalkTrims | src/orderbook/l3_order_book.cpp:308-331 | orders leave from the front only; at most the new front is part-filled, and only if the incoming quantity is used up |
| PriceTime.WalkPrices | src/orderbook/l3_order_book.cpp:245-275 | trades are in price priority, at the resting price, never beyond the limit, each for a positive quantity |
| BookTheorems.TradesNameBothParties | src/orderbook/l3_order_book.cpp:264-275 | every new tape entry names the k-th order of the opposite side and its trader as resting, the submitted order and its trader as incoming, with side, symbol, time and consecutive id |
| BookTheorems.TakesWhatItMay | src/orderbook/l3_order_book.cpp:243-262 | no trade is beyond a limit price, and an order left unfilled (not fill-or-kill) leaves nothing at a price it accepts, a market order nothing at all |
| BookTheorems.EligibleIsAcceptable | src/orderbook/l3_order_book.cpp:247-254 | the eligible liquidity is everything available at prices the order accepts |
| L3Book.L3OrderBook.MatchAgainst | src/orderbook/l3_order_book.cpp:239-333 | the nested in-place loops, on any well-formed ladder with icebergs, produce exactly the greedy walk over the flattened ladder and leave ladder, index, counters and tape exact |
| L3Book.L3OrderBook.Fill | src/orderbook/l3_order_book.cpp:260-306 | one trade: record, counters and the reduced resting order, with replenishment |
| L3Book.L3OrderBook.ScanLiquidity | src/orderbook/l3_order_book.cpp:191-224 | the fill-or-kill scan with its two early exits accepts iff the eligible liquidity covers the quantity |
| L3Book.L3OrderBook.MatchIncoming | src/orderbook/l3_order_book.cpp:186-237 | check and match together perform the flat match, or nothing |
| L3Book.L3OrderBook.AddOrder | src/orderbook/l3_order_book.cpp:15-95 | book, index, counters and report after a submission are those of the flat book; the representation stays exact |
| L3Book.L3OrderBook.AddRestingOrder | src/orderbook/l3_order_book.cpp:335-367 | the remainder goes behind every order at least as good, in an existing or new level, with index entry and count |
| L3Book.L3OrderBook.CancelOrder | src/orderbook/l3_order_book.cpp:98-157 | removes exactly the order, its index entry and its count, renumbers its level, reports its whole size; an unknown id changes nothing |
| L3Book.L3OrderBook.UpdateQueuePositions | src/orderbook/l3_order_book.cpp:369-389 | the queue is renumbered 0, 1, 2, ... and otherwise unchanged |
| L3Book.L3OrderBook.ReplaceOrder | src/orderbook/l3_order_book.cpp:160-183 | cancel, then submit under the same id, whatever the new quantity |
| L3Book.ViewDeterminesObject | src/orderbook/l3_order_book.h:113-148 | two consistent book objects with the same flat view agree in levels, queues, index and every counter |
| Ladder.LadderUnique | src/orderbook/l3_order_book.h:114-120 | a flat list of orders is the content of one well-formed ladder only |
| L3Book.L3OrderBook.Depth | src/orderbook/l3_order_book.cpp:474-516 | the best n prices in order, each with exact displayed quantity and order count, none skipped |
| L3Book.L3OrderBook.Best | src/orderbook/l3_order_book.cpp:400-428 | the best price of a side with its exact totals, nothing iff the side is empty |
| L3Book.L3OrderBook.TopOfBook | src/orderbook/l3_order_book.cpp:430-472 | in a two-sided book spread is positive and mid and micro price lie between best bid and best ask |
| L3Book.L3OrderBook.QuantityAhead | src/orderbook/l3_order_book.cpp:548-585 | the displayed quantity of the older orders at the order's price, 0 for an unknown id |
| L3Book.L3OrderBook.QueuePosition | src/orderbook/l3_order_book.cpp:540-546 | the stored position, never less than the number of older orders at the price |
| BookQueries.BestHeadsDepth | src/orderbook/l3_order_book.cpp:400-516 | the best price is the first entry of any depth report |
| BookQueries.DepthDetermined | src/orderbook/l3_order_book.cpp:474-516 | the book determines the depth report |
| BookQueries.WeightedBetween | src/orderbook/l3_order_book.cpp:447-452 | the size-weighted price lies between the two prices under truncating division, for prices of any sign |
| BookQueries.TruncBetween | src/orderbook/l3_order_book.cpp:444-452 | truncating division keeps integer bounds for dividends of any sign |
| BookQueries.TruncTowardZero | src/orderbook/l3_order_book.cpp:444-452 | the division used rounds toward zero |
| Matching.IndexUnique | src/orderbook/l3_order_book.h:122-130 | the resting orders determine the id index |
| BookInvariant.SubmitKeepsInv | src/orderbook/l3_order_book.cpp:15-95 | a submission keeps both sides sorted, live and duplicate-free, positions bounded, the book uncrossed, trade ids consecutive |
| BookInvariant.CancelKeepsInv | src/orderbook/l3_order_book.cpp:98-157 | so does a cancel, after which the id is gone |
| BookInvariant.ReplaceKeepsInv | src/orderbook/l3_order_book.cpp:160-183 | so does a replace |
| BookInvariant.RemainderIsPassive | src/orderbook/l3_order_book.cpp:62-68 | a remainder rests only when nothing on the other side is eligible |
| BookTheorems.FillOrKillIsExact | src/orderbook/l3_order_book.cpp:191-224 | fill-or-kill fills completely iff the eligible liquidity covers it, and otherwise leaves the whole book unchanged |
| BookTheorems.UnfillableFokIsRejectedIffLimit | src/orderbook/l3_order_book.cpp:44-86 | an unfillable fill-or-kill order is rejected, for insufficient liquidity, iff it is a limit order |
| BookTheorems.ReportMatchesTape | src/orderbook/l3_order_book.cpp:40-77 | filled quantity is the sum of the new trades; status, open quantity and reason follow from it; a partial fill names its last trade |
| BookTheorems.ReportRepeatsOrder | src/orderbook/l3_order_book.cpp:17-27 | every submission report repeats id, trader, symbol, side, type, price, quantity and time |
| BookTheorems.RejectionsChangeNothing | src/orderbook/l3_order_book.cpp:29-36 | a duplicate id is rejected as such, an unknown id is rejected by cancel and replace, and the book stays as it was |
| BookTheorems.CancelTells | src/orderbook/l3_order_book.cpp:112-123 | a cancel report gives id, trader, side, price, whole size and filled quantity of the order that rested |
| BookTheorems.CancelTakesOneOut | src/orderbook/l3_order_book.cpp:125-154 | a cancel removes that order and leaves all others, the other side and the tape where they were |
| BookTheorems.DayOrderRests | src/orderbook/l3_order_book.cpp:62-68 | a day limit order rests iff its report has open quantity, on its own side only, last at its price |
| BookTheorems.MarketOrderMeetsNothing | src/orderbook/l3_order_book.cpp:48-68 | in an empty book every market order, fill-or-kill or not, is reported New and open, and nothing rests |
| BookTheorems.SubmitNothing | src/orderbook/l3_order_book.cpp:40-62 | a submission without a positive quantity changes nothing and is reported Filled (zero) or New (negative) |
| BookTheorems.OpenQuantityRestsIff | src/orderbook/l3_order_book.cpp:48-68 | "quantity is open iff it rests" holds iff the order is a limit order or fully covered |
| BookTheorems.RestsAtTheBack | src/orderbook/l3_order_book.cpp:335-367 | the remainder is last at its price, under the order's trader and side, with the reported open and filled quantities, entry time and exact position |
| BookTheorems.AddThenCancel | src/orderbook/l3_order_book.cpp:15-157 | adding a passive order and cancelling it restores the book up to renumbering its price, exactly if positions there were exact |
| BookTheorems.ReplaceIsDeleteThenSubmit | src/orderbook/l3_order_book.cpp:160-183 | replacing a resting id is deleting it and submitting a day limit order with the new terms on the same side, never a duplicate or a reject, remainder at the back of that side; without a positive new quantity it is just deleting |
| BookTheorems.QuantityAheadAndHidden | src/orderbook/l3_order_book.cpp:548-585 | with icebergs, an incoming order trades with X iff it exceeds the better quantity, the quantity ahead and what the orders ahead hold back |
| BookTheorems.QuantityAheadDecidesFill | src/orderbook/l3_order_book.cpp:548-585 | an incoming order trades with X iff it exceeds the quantity at better prices plus the quantity ahead of X |
| BookTheorems.MatchKeepsPositionsIff | src/orderbook/l3_order_book.cpp:308-331 | exact stored positions survive matching iff the quantity does not take away part of a level |
| BookTheorems.SubmitKeepsPositionsIff | src/orderbook/l3_order_book.cpp:308-367 | a submission keeps all stored positions of both sides exact iff its quantity does not take away part of a level |
| BookTheorems.CancelKeepsPositions | src/orderbook/l3_order_book.cpp:125-154 | a cancel keeps all stored positions exact |
| BookRuns.RunKeepsPositionsIff | src/orderbook/l3_order_book.cpp:15-183 | stored positions stay exact throughout a run of any requests iff no submission in it takes away part of a level |
| BookTheorems.CancelMakesPositionsExact | src/orderbook/l3_order_book.cpp:132-136 | after a cancel the positions at its price are exact |
| BookRuns.ReachableBooks | src/orderbook/l3_order_book.cpp:15-183 | every reachable book satisfies the invariant, is uncrossed and has no hidden quantity |
| BookRuns.RunTimePriority | src/orderbook/l3_order_book.cpp:351-362 | with a clock that does not run back, older orders stand in front at every price of every reachable book |
| BookRuns.QuantityIsConserved | src/orderbook/l3_order_book.cpp:277-306 | over any run: submitted = 2 * traded + resting + cancelled or expired, and every resting order accounts for its submitted size |
| BookRuns.CancelReportsSubmittedSize | src/orderbook/l3_order_book.cpp:119-120 | after any run a cancel report restores the submitted quantity |
| BookRuns.ReachableQueuePosition | src/orderbook/l3_order_book.cpp:548-585 | the meaning of queue position, in every reachable book |
| BookRuns.StoredPositionsCollide | src/orderbook/l3_order_book.cpp:352-354 | a run of four submissions after which two orders at one price store the same position |
| SimpleSpec.WalksAgree | src/market/order_book.cpp:59-150 | the two books' matching gives the same trades, leftover and residue |
| SimpleSpec.SubmitsAgree | src/market/order_book.cpp:13-25 | match-then-add on the simple book corresponds to a submission |
| SimpleSpec.RunsAgree | src/market/order_book.cpp:13-150 | fed the same requests from empty, the two books stay order for order the same |
| SimpleLimitBook.OrderBook.MatchIncoming | src/market/order_book.cpp:59-150 | the in-place loops perform the simple walk and keep ladder and index in step |
| SimpleLimitBook.OrderBook.AddOrder | src/market/order_book.cpp:13-25 | inserts at the back of the price, whatever the order; the book stays consistent iff the id was new and the quantity positive |
| SimpleLimitBook.AddTwice | src/market/order_book.cpp:13-25 | adding one order twice leaves two orders behind one index entry |
| SimpleLimitBook.OrderBook.CancelOrder | src/market/order_book.cpp:27-57 | removes exactly the order and its index entry, and says whether it was there |
| RiskSpec.CheckedFillKeepsPositions | src/risk/risk_engine.cpp:154-197 | a fill of at most the checked quantity keeps symbol and net positions inside the limits and net equal to the sum |
| RiskSpec.ReasonsIff | src/risk/risk_engine.cpp:23-68 | each reject reason iff, from the raw records: kill switch of the trader or of all, bad price, bad quantity, limits inclusive, no room in the window; an order that violates nothing passes |
| RiskSpec.FillIsRecorded | src/risk/risk_engine.cpp:70-83 | a fill moves the position of its trader and symbol and the trader's net by its signed quantity, and nothing else; a check moves none |
| RiskSpec.PassedOrdersAreSane | src/risk/risk_engine.cpp:229-245 | orders that pass have positive quantity and, for limit orders, positive price |
| RiskSpec.RateCheckKeepsLimiter | src/risk/risk_engine.cpp:199-220 | the deque is exactly the unexpired end of the history of passed times, and no window holds more than the limit |
| RiskSpec.PassesIffRoom | src/risk/risk_engine.cpp:199-220 | with times in order an order passes iff the window ending with it holds fewer passed orders than the limit |
| RiskSpec.RateLimitHolds | src/risk/risk_engine.cpp:199-220 | over any series of checks with times in order, any closed interval of the window's length holds at most the limit of passed orders |
| RiskSpec.ExpiredIff | src/risk/risk_engine.cpp:208-211 | for all 64-bit times: a stamp counts as expired iff it is older than the window, or newer than the order checked with a wrapped age beyond the window |
| RiskSpec.DropsRecentIff | src/risk/risk_engine.cpp:208-211 | a check, in or out of order, drops a stamp not older than the window iff it is stamped before the oldest stamp kept and that stamp's wrapped age is beyond the window |
| RiskSpec.ForgettingBreaksLimit | src/risk/risk_engine.cpp:208-218 | a full limiter that forgets its oldest stamp passes the order, and the window starting there holds more than the limit |
| RiskSpec.LimitHoldsIff | src/risk/risk_engine.cpp:199-220 | for any exact limiter and any 64-bit time, in order or not: the bound on every window survives the check iff there is no crowd around the order, or the limiter is full and drops nothing |
| RiskSpec.SafeIffInOrder | src/risk/risk_engine.cpp:199-220 | from the times alone: the bound survives the check for every history iff time does not step back (step and window inside the 64-bit range) |
| RiskSpec.RateAllowsIff | src/risk/risk_engine.cpp:208-216 | the limiter never holds more than the limit, and refuses iff it is full with an oldest stamp neither outdated nor forgotten |
| RiskSpec.FullLimiterHoldsIff | src/risk/risk_engine.cpp:199-220 | for a full limiter and a step back of at most a window the deque decides: the bound survives iff the oldest stamp is not forgotten |
| RiskSpec.LimitFailsWithoutForgetting | src/risk/risk_engine.cpp:199-220 | a failing run of five orders in which nothing recent is dropped and the limiter is not full |
| RiskSpec.LimiterForgetsOnStepBack | src/risk/risk_engine.cpp:208-218 | the smallest failing run: two passes inside one window of limit one |
| RiskControl.RiskEngine.CheckOrder | src/risk/risk_engine.cpp:23-68 | the first failing check decides; records change only as far as the order got |
| RiskControl.RiskEngine.CheckPositionLimit | src/risk/risk_engine.cpp:154-197 | accepts iff both projected positions are within the limits |
| RiskControl.RiskEngine.CheckRateLimit | src/risk/risk_engine.cpp:199-220 | the loop drops exactly the expired front and records the order iff there is room |
| RiskControl.RiskEngine.OnFill | src/risk/risk_engine.cpp:70-83 | books the signed quantity on the symbol and on the net position |
| RiskControl.RiskEngine.KillTrader | src/risk/risk_engine.cpp:85-98 | afterwards every order of that trader is refused, or, released, refused by no switch of its own; other traders do not notice |
| RiskControl.RiskEngine.UnkillAll | src/risk/risk_engine.cpp:100-107 | afterwards no order is refused by a kill switch, and nothing else changed |
| EngineSpec.PositionLimitsHold | src/market/matching_engine.cpp:70-133 | over any run of requests all recorded positions stay inside the limits |
| EngineTheorems.PositionsAreReportedFills | src/market/matching_engine.cpp:115-125 | over any run from a fresh engine the recorded position is the signed sum of the reported fills of the trader's own orders, within its limit; the net is the sum over all symbols, within its own |
| EngineTheorems.StoppedTraderStaysOut | src/market/matching_engine.cpp:90-110 | a kill switch stops its trader through any run of requests |
| EngineTheorems.NewOrderActs | src/market/matching_engine.cpp:70-133 | a new order is refused with the first failing check's reason and changes no book, or is submitted to its own book and no other; counters follow |
| EngineTheorems.CancelActsOn | src/market/matching_engine.cpp:135-179 | a cancel, naming its symbol or routed, removes the order resting there with its route and nothing else; otherwise it is rejected and changes nothing; an unknown symbol is told |
| EngineTheorems.UnroutedCancel | src/market/matching_engine.cpp:141-152 | a cancel without symbol for an id not remembered is rejected |
| EngineTheorems.ReplaceActs | src/market/matching_engine.cpp:181-203 | a replace deletes and resubmits in the named book only; otherwise it is rejected and changes nothing |
| EngineSpec.EngineRateLimitHolds | src/market/matching_engine.cpp:92-110 | over any engine run the window limit holds for every trader whose submit times are in order |
| EngineSpec.NewOrderKeepsRoutingIff | src/market/matching_engine.cpp:115-119 | a new order keeps routing complete iff it is not one that is admitted, new to its book, not fully fillable there and no limit fill-or-kill, while its id rests in another book, all read off the state before the call |
| EngineSpec.TrackedIff | src/market/matching_engine.cpp:116-119 | exactly which orders are remembered for routing, from the book before the order arrives |
| EngineSpec.MarketOrderTakesRoute | src/market/matching_engine.cpp:115-152 | a failing run: a market order that never rests takes the route of a resting order, whose open cancel is then rejected |
| EngineSpec.CancelKeepsRouting | src/market/matching_engine.cpp:135-179 | a cancel keeps routing complete |
| EngineSpec.ReplaceKeepsRouting | src/market/matching_engine.cpp:181-203 | a replace keeps routing complete without touching it |
| EngineSpec.OpenCancelsFindResting | src/market/matching_engine.cpp:135-179 | when each id is sent to one symbol, a cancel without a symbol always finds and cancels a resting order |
| Matcher.MatchingEngine.ProcessNewOrder | src/market/matching_engine.cpp:70-133 | symbol check, risk check, book, routing and fill booking give the engine's specified next state and report |
| Matcher.MatchingEngine.ProcessCancel | src/market/matching_engine.cpp:135-179 | the cancel reaches the named or remembered book and no other |
| Matcher.MatchingEngine.ProcessReplace | src/market/matching_engine.cpp:181-203 | the replace reaches the named book only; risk and routing are untouched |
| Matcher.MatchingEngine.AddSymbol | src/market/matching_engine.cpp:15-47 | a new symbol gets an empty book of its own; a known one keeps its book |
| RingBuffer.MaskIsMod | src/HPRingBuffer.hpp:87-89 | masking with size - 1 is the remainder, for every power of two |
| RingBuffer.StepKeepsRing | src/HPRingBuffer.hpp:28-61 | every atomic step of either thread, with stale but monotone views, keeps the ring invariant |
| RingBuffer.EveryInterleaving | src/HPRingBuffer.hpp:28-61 | in every interleaving pushed = popped ++ contents, occupancy stays below the size, and no slot is written while it is read |
| RingBuffer.RefusalsAreJustified | src/HPRingBuffer.hpp:31-33 | a push is refused iff the buffer is full, a pop iff it is empty, relative to the other counter as read |
| RingBuffer.OccupancyIsExact | src/HPRingBuffer.hpp:72-76 | the size computed from the two indices of one moment is the number of items held |
| RingBuffer.ProducerSeesAtLeast | src/HPRingBuffer.hpp:63-76 | asked by the producer, size is never below the number held, and a full buffer always looks full |
| RingBuffer.ConsumerSeesAtMost | src/HPRingBuffer.hpp:63-76 | asked by the consumer, size is never above the number held, and an empty buffer always looks empty |
| RingBuffer.WatcherIsRightIff | src/HPRingBuffer.hpp:72-76 | asked by a third thread, with any steps between the two loads, size is right iff missed pushes and missed pops differ by a multiple of the size |
| RingBuffer.WatcherMisreads | src/HPRingBuffer.hpp:72-76 | a schedule in which a third thread is told that an empty buffer holds an item |
| RingBuffer.HPRingBuffer.Push | src/HPRingBuffer.hpp:28-38 | appends the item, or refuses iff full |
| RingBuffer.HPRingBuffer.Pop | src/HPRingBuffer.hpp:52-61 | yields the oldest item, or nothing iff empty |
| MemoryPools.StepKeepsPool | src/common/memory_pool.h:59-94 | every atomic step, including stale loads and exchanges that fail, spuriously or not, and reload a possibly stale head, keeps the pool invariant |
| MemoryPools.EveryInterleaving | src/common/memory_pool.h:59-94 | with one allocating and any number of freeing threads the free list is an acyclic chain, every slot has one owner, and no slot is handed out twice |
| MemoryPools.GivingUpIsJustified | src/common/memory_pool.h:60-62 | an allocation gives up only if the free list was empty at some moment since the allocating thread's last successful exchange |
| MemoryPools.FreedSlotsAreInUse | src/common/memory_pool.h:80-87 | the double-free assertion never fires for clients that free what they hold |
| MemoryPools.QuietAccounts | src/common/memory_pool.h:96-98 | with no call in flight count + free list length = capacity, and the count is the number of slots held |
| MemoryPools.MemoryPool.Allocate | src/common/memory_pool.h:59-71 | takes the head of the list, fails iff the list is empty |
| MemoryPools.MemoryPool.Deallocate | src/common/memory_pool.h:74-94 | puts the slot at the head of the list |
| MemoryPools.MemoryPool.constructor | src/common/memory_pool.h:33-41 | all slots on the list, none in use |
| Histogram.PercentileAgreesWithHistory | src/metrics/latency_histogram.h:82-101 | for p in (0, 1] the answer is the midpoint of the bucket of the ceil(n p)-th smallest sample, within half a bucket of it, never the fallback |
| Histogram.PercentileEdges | src/metrics/latency_histogram.h:84-100 | 0 without samples, the range limit for a rank beyond the last sample |
| Histogram.PercentileMonotone | src/metrics/latency_histogram.h:82-101 | larger quantiles give larger answers |
| Histogram.CumulativeFindsRank | src/metrics/latency_histogram.h:91-99 | the cumulative count reaches k at the bucket of the k-th smallest sample |
| Histogram.ExtremesAreExact | src/metrics/latency_histogram.h:50-53 | the running extremes are the smallest and largest sample |
| Histogram.LatencyHistogram.Record | src/metrics/latency_histogram.h:45-62 | constant-time recording keeps every bucket equal to its count over the whole history |
| Histogram.LatencyHistogram.Percentile | src/metrics/latency_histogram.h:82-101 | the cumulative loop answers from the buckets what the history demands |
| Histogram.LatencyHistogram.Reset | src/metrics/latency_histogram.h:103-110 | empties the history |

## Left out

- Trade, top-of-book and depth callbacks and publishing: foreign code; emitted trades are on the ghost tape.
- `market_data_engine`, `trade_engine`, `latency_model`, `telemetry`, `clock`, timers and benchmarks: floating point, random sampling, wall time or console output.
- `l1_feed` and `l2_aggregator`: rolling floating-point statistics, and copies of the depth report.
- Client order id strings, execution ids, symbol hashing and truncation, object alignment and placement, 64-bit overflow of prices and quantities.
- `best bid`, `best ask` and depth queries of the simple book, `orders_at_price` and the plain counters: accumulator loops like those modelled.
- Histogram mean and the fixed set of percentiles in `stats`: the mean is a floating-point sum; quantile ranks are computed over exact reals.
- Two or more threads allocating from the pool at once: the exchange compares a bare index, and the code does not guarantee this case. Payload construction and destruction in pool slots.
- Passive-side positions, risk checks on replace and self-trade prevention: the code does not do them.
- MemoryPools.AllocateAlone: liveness; how often an exchange may fail before it succeeds is not bounded.
- RingBuffer.StepKeepsRing: memory ordering is modelled as interleaving with stale index reads; a slot's contents are taken to be visible once the index that publishes it is.
