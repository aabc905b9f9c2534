# A verified model of the order book engine

The engine keeps a limit order book in its own data structures: two intrusive red-black trees of price levels, a
doubly linked FIFO queue of orders on every level, an open-addressing map from order identities to orders, two
object pools with free lists, and beside them a lock-free single-producer single-consumer ring. This project models
these structures in Dafny, as they are written, and proves what they promise.

The layers, from the bottom up:

- `Types`, `Options`, `Sequences`: prices, quantities and identities with their widths, and what goes with sequences.
- The tree: `TreeShape` (trees and trees with a hole, as values), `RedBlack` (the colour and height invariants and
  every rewriting step of the two fixup loops), `Splice` (what a removal cuts out), `Rebalance` (the two loops, and
  insertion and removal around them, as functions on every tree with sound colours), `TreeLinks` (links against
  shapes), `LevelOrder` (ordered sequences of levels), `IntrusiveTree` (the class, which rewrites parent, left, right
  and colour in place).
- The levels: `Levels` has the classes `Order` and `PriceLevel` with the linked queue and its counters.
- The map: `ProbeTable` and `BackShift` (the table as a value), `FlatHashMaps` (the class over its array).
- The pool: `ObjectPools`; `SlotUse` says which slots the live objects have.
- The specification of the book on plain values: `Sweeps` (matching), `Ladders` (one side), `BookSpec` (add, cancel,
  modify), `BookLaws` (what these come to for the offers of the two sides, told without any loop, and that nothing else
  fits), `BookRuns` (whole runs), `Mirror` (buying against selling), `MarketDepth` (what the depth queries show).
- The book: `Sides` (a tree with its queues stands for a ladder), `LadderSteps`, and `OrderBooks` with the class
  `OrderBook`, whose methods do exactly what `BookSpec` says. `Replays` feeds it recorded messages.
- The ring: `SpscProtocol` (one memory access a step), `SpscInvariant` (all interleavings), `SpscStale` (calls that
  fail because of a stale load), `SpscQueues` (the class).
- Accounting and signals: `Positions`, `Vwap`, `Drawdown`.

Capacities and the hash function are parameters. Heap methods carry ghost parameters such as the place of a node in
the tree or of an order in its queue; they only serve the proofs. An object taken from a pool is a new Dafny object
with the number of its slot, as placement new constructs one; it is released by giving the slot back. The inner
matching loop, which the source writes once for buying and once for selling, is one method here. `trades` is passed
in and handed back instead of being appended to in place. Methods that only compose the contracts of others `hide` the
bodies of the predicates they carry along, which keeps their verification short.

## Where the code and its intent differ

- Removing a node whose spliced-out node is a black leaf skips the fixup (include/orderbook/intrusive_tree.hpp:139),
  and leaves a tree with unequal black heights. `IntrusiveRBTree.Remove` and `Insert` are the code as it is, on every
  tree that such removals leave behind: order, links, no red node below a red one and a black root are kept, and the
  resulting tree is the one that `Rebalance.Removal` and `Insertion` give. `Splice.CutBalance` and
  `Rebalance.RemovalBalance` have the exact condition under which equal black heights survive. On the trees without
  equal black heights `delete_fixup` can read through a null sibling (line 309 or 315). `DeleteFixup` has the exact
  condition (`Rebalance.Stuck`, a walk up the tree before the call: from a black node below black parents whose
  siblings are black without a red child, to a place where the sibling is missing, or is red without a child on the
  near side), and `Rebalance.RunLeans`, `RunUneven` and `RunReadsNull` are a run from the empty tree, of seven
  insertions and four removals, that reaches it. `RemoveRebalanced` is a **repair**: it runs `delete_fixup` on the
  black leaf before unlinking it. The book below uses the repair.
- `FlatHashMap::remove` frees the slot and nothing else (include/orderbook/orderbook.hpp:226). `FlatHashMap.Remove` and
  `Insert` are the code as it is, on any table; `ProbeTable.FreeHides`, `FreeSound` and `FreeLosesAKey` say exactly what
  freeing does to other keys, and `InsertDuplicates` when inserting such a key stores it twice.
  `RemoveShift` is a **repair** with back-shift deletion. The book below uses the repair. The repository's README says
  the map does Robin-hood probing; the code, and the model, do plain linear probing.
- `get_bids` walks to predecessors (src/orderbook.cpp:127) and so shows at most one level. `OrderBook.GetBids` is the
  code as it is, with the exact condition under which that is what was asked for; `MarketDepth.SecondBidHidden` is a
  run where it is not, and `GetBidsBySuccessor` is a **repair**.
- The invalid price is an ordinary 64-bit value, so an order can rest at it and is then not seen by the crossing test.
  `BookSpec.AddUncrossed` has the exact condition under which a book gets crossed, `BookRuns.InvalidPriceCrosses` an
  example, `BookRuns.NeverCrossed` the guarantee for all runs with other prices.
- A position of 2^32 units or more is cut to 32 bits before it is compared with a fill. `Positions.CloseExact` has the
  exact condition under which the books stay right, `Positions.MiscountReached` a history of three fills after which
  the reported profit is off by the gain on the units still held.
- A push can fail on a ring that was never full, and a pop on a ring that holds an item, if the index it loads is not
  the newest: `SpscInvariant.PushFails` and `PopFails` have the exact conditions, `SpscStale` a run for each.

## Model

| member | source | states |
|---|---|---|
| RedBlack.ClimbRecolor | include/orderbook/intrusive_tree.hpp:269-274 | red uncle: after recolouring, the grandparent is a red node that can climb further |
| RedBlack.ClimbInner | include/orderbook/intrusive_tree.hpp:276-279 | an inner child becomes an outer one by a rotation, and everything else holds as before |
| RedBlack.ClimbOuter | include/orderbook/intrusive_tree.hpp:280-282 | an outer child with a black uncle: recolouring and rotating restores all invariants |
| RedBlack.ShortSibling | include/orderbook/intrusive_tree.hpp:308-309 | the sibling of a subtree that is one black short is never null |
| RedBlack.ShortRedSibling | include/orderbook/intrusive_tree.hpp:309-314 | a red sibling is rotated up; the new sibling is black and not null |
| RedBlack.ShortUp | include/orderbook/intrusive_tree.hpp:315-318 | black nephews: the shortage moves to the parent |
| RedBlack.ShortInner | include/orderbook/intrusive_tree.hpp:320-325 | a red near nephew becomes a red far nephew |
| RedBlack.ShortOuter | include/orderbook/intrusive_tree.hpp:326-330 | a red far nephew makes up the shortage for the whole tree |
| RedBlack.LogarithmicHeight | include/orderbook/intrusive_tree.hpp:53-89 | 2 to the height of a red-black tree of n nodes is at most (n + 1) squared: no path is longer than 2 log2(n + 1) |
| IntrusiveTree.IntrusiveRBTree.HeightBound | include/orderbook/intrusive_tree.hpp:53-89 | the same for the linked tree of a valid book side and the number of its levels |
| Splice.CutBalance | include/orderbook/intrusive_tree.hpp:101-146 | removal keeps root colour and no red-red edge, and equal black heights exactly if it does not unlink a black leaf; otherwise only that null position is one short |
| Splice.CutWhole | include/orderbook/intrusive_tree.hpp:107-130 | in all three cases the in-order sequence loses exactly the removed node |
| Splice.SuccessorTakesPlace | include/orderbook/intrusive_tree.hpp:113-130 | with two children, the next node in order takes the place and the colour of the removed one, and its left subtree stays |
| Rebalance.ClimbedColors | include/orderbook/intrusive_tree.hpp:266-303 | on every tree with sound colours and a red node below a possibly red parent, the insertion loop ends without a red node below a red one and with a black root |
| Rebalance.ClimbedTidy | include/orderbook/intrusive_tree.hpp:266-303 | and in a red-black tree if the black heights were equal before |
| Rebalance.RepairTurnColors | include/orderbook/intrusive_tree.hpp:306-358 | one round of the deletion loop, where its two sibling reads find nodes, keeps the colours, comes closer to the end, and does not change whether the loop will read a null |
| Rebalance.RepairedTidy | include/orderbook/intrusive_tree.hpp:305-360 | from a tree that is one black short at a non-null node the deletion loop reads no null and ends in a red-black tree |
| Rebalance.CutColors | include/orderbook/intrusive_tree.hpp:101-130 | the cut of a removal keeps the colours in order, and leaves the fixup a node it accepts, whatever the black heights are |
| Rebalance.RejoinedColors | include/orderbook/intrusive_tree.hpp:139-145 | a removal that reads no null ends without a red node below a red one and with a black root |
| Rebalance.RemovalBalance | include/orderbook/intrusive_tree.hpp:101-146 | from a red-black tree a removal reads no null, and the result is red-black exactly if no black leaf was unlinked |
| Rebalance.RemovalSafe | include/orderbook/intrusive_tree.hpp:101-146 | in a red-black tree no removal, at whatever position, reads a null |
| Rebalance.RunLeans | include/orderbook/intrusive_tree.hpp:53-146 | from the empty tree: the trees of inserting 4, 3, 2 and 1 and removing 3 |
| Rebalance.RunUneven | include/orderbook/intrusive_tree.hpp:53-146 | and of then inserting 8, 7 and 6 and removing 4 |
| Rebalance.RunReadsNull | include/orderbook/intrusive_tree.hpp:308-309 | and of then removing 7; removing 6 now reads a null sibling |
| TreeLinks.RotatedLeft | include/orderbook/intrusive_tree.hpp:230-246 | the eight link writes of a left rotation turn the spelled-out tree into the rotated one, whatever surrounds it |
| TreeLinks.RotatedRight | include/orderbook/intrusive_tree.hpp:248-264 | the same for a right rotation |
| IntrusiveTree.IntrusiveRBTree.InsertFixup | include/orderbook/intrusive_tree.hpp:266-303 | on every tree with sound colours, terminates in the tree of the insertion loop as a function on values, with the same in-order sequence, sound colours and a black root; balanced if it was |
| IntrusiveTree.IntrusiveRBTree.DeleteFixup | include/orderbook/intrusive_tree.hpp:305-360 | on every tree with sound colours, fails exactly if the nearest place above that stops the loop has no sibling, or a red one without a near child; otherwise terminates in the tree of the deletion loop as a function on values, with the same in-order sequence; from a tree that is one black short it never fails and the result is red-black |
| IntrusiveTree.IntrusiveRBTree.FindNode | include/orderbook/intrusive_tree.hpp:389-404 | returns the level of the price, or null only if no level has it, in no more rounds than the tree is high, so in at most 2 log2(n + 1) if it is red-black |
| IntrusiveTree.IntrusiveRBTree.Insert | include/orderbook/intrusive_tree.hpp:53-89 | on every tree that insertions and removals as written leave: adds exactly the new level at its place in the order, with the links and colours of insertion on values, and keeps equal black heights; or returns false and changes nothing if the price is there |
| IntrusiveTree.IntrusiveRBTree.Transplant | include/orderbook/intrusive_tree.hpp:362-373 | hangs one subtree in the place of another |
| IntrusiveTree.IntrusiveRBTree.Remove | include/orderbook/intrusive_tree.hpp:101-146 | as written, on every tree that insertions and removals as written leave: fails exactly where the fixup reads a null sibling, which is never in a red-black tree; otherwise takes out exactly the given level, keeps order, links, colours and a black root, and ends in the tree of removal on values; from a red-black tree, balanced afterwards exactly if no black leaf was unlinked, else one short at exactly one null |
| IntrusiveTree.IntrusiveRBTree.RemoveRebalanced | include/orderbook/intrusive_tree.hpp:101-146 | the repair: takes out exactly the given level and keeps every red-black invariant |
| IntrusiveTree.IntrusiveRBTree.Minimum | include/orderbook/intrusive_tree.hpp:148-154 | the first level in the order of the side, or null |
| IntrusiveTree.IntrusiveRBTree.Successor | include/orderbook/intrusive_tree.hpp:190-214 | the next level in order, or null at the end |
| IntrusiveTree.IntrusiveRBTree.Predecessor | include/orderbook/intrusive_tree.hpp:164-188 | the level before in order, or null at the front |
| Levels.PriceLevel.AddOrder | include/orderbook/orderbook.hpp:80-94 | the order is linked in at the tail; links, back pointer, count and 32-bit total stay those of the queue |
| Levels.PriceLevel.RemoveOrder | include/orderbook/orderbook.hpp:96-115 | exactly that order is unlinked, the others keep their order, and the counters follow |
| Levels.PriceLevel.Reduce | src/orderbook.cpp:241-242 | a partial fill lowers the order and the total together |
| Levels.ChainRemoved | include/orderbook/orderbook.hpp:96-107 | relinking the two neighbours of any element leaves a doubly linked list of the rest |
| ProbeTable.LookupMap | include/orderbook/orderbook.hpp:206-218 | on a sound table the probing loop is the lookup of the stored map |
| ProbeTable.FreeHides | include/orderbook/orderbook.hpp:220-234 | freeing a slot hides another key exactly if the slot lies on the cyclic way from its home to its slot |
| ProbeTable.FreeForgets | include/orderbook/orderbook.hpp:220-234 | the removed key and absent keys are not found afterwards |
| ProbeTable.FreeSound | include/orderbook/orderbook.hpp:220-234 | the table stays sound exactly if no other key is probed across the freed slot |
| ProbeTable.FreeLosesAKey | include/orderbook/orderbook.hpp:226 | an example where a key that is still stored cannot be found any more, and would be inserted a second time |
| ProbeTable.InsertDuplicates | include/orderbook/orderbook.hpp:184-204 | on any table that stores every key once, inserting stores a key twice exactly if it is stored where find does not reach it |
| ProbeTable.VacancyFirst | include/orderbook/orderbook.hpp:188-202 | insert stops at the first slot on its cyclic way that is free or holds the key |
| ProbeTable.VacancyProbe | include/orderbook/orderbook.hpp:188-217 | insert and find probe alike, on any table: find ends where insert does, unless that slot is free |
| FlatHashMaps.FlatHashMap.FindSlot | include/orderbook/orderbook.hpp:206-218 | the loop with its wrap-around and probe bound computes the lookup, on any table |
| FlatHashMaps.FlatHashMap.Find | include/orderbook/orderbook.hpp:206-218 | returns the value in the slot that the probing reaches, on any table; on a sound one the value last inserted for the key, or none |
| FlatHashMaps.FlatHashMap.FindRoom | include/orderbook/orderbook.hpp:188-202 | on any table, the slot insert stops at: of the key or the first free one, and every slot before it holds another key |
| FlatHashMaps.FlatHashMap.Insert | include/orderbook/orderbook.hpp:184-204 | on any table, writes exactly the slot where the probing stops, fails exactly if there is none, and keeps the size the number of used slots; on a sound one refines map update, and fails exactly if the table is full and the key is new |
| FlatHashMaps.FlatHashMap.Remove | include/orderbook/orderbook.hpp:220-234 | as written, on any table: frees exactly the slot that find reaches, if any, and keeps the size the number of used slots; on a sound one returns whether the key was there, and refines map removal if the table is still sound |
| FlatHashMaps.FlatHashMap.RemoveShift | include/orderbook/orderbook.hpp:220-234 | the repair: refines map removal always |
| BackShift.ShiftMove | include/orderbook/orderbook.hpp:220-234 | part of the repair: moving an entry into the hole leaves one hole further on, the same map, and entries closer to home |
| FlatHashMaps.FlatHashMap.Clear | include/orderbook/orderbook.hpp:237-240 | the empty map |
| ObjectPools.ObjectPool.constructor | include/orderbook/arena.hpp:115-130 | the loop builds the list of all slots in ascending order |
| ObjectPools.ObjectPool.Acquire | include/orderbook/arena.hpp:141-153 | hands out the first free slot; null exactly if none is free |
| ObjectPools.ObjectPool.Release | include/orderbook/arena.hpp:155-163 | puts the slot in front, so that it is the next one handed out; nothing for null |
| ObjectPools.Partition | include/orderbook/arena.hpp:165-166 | slots in use and available slots add up to the pool |
| Sweeps.FillRound | src/orderbook.cpp:230-253 | one turn of the inner loop followed by the rest of it is the fill of the level |
| Sweeps.SweepFirst | src/orderbook.cpp:223-258 | one turn of the outer loop followed by the rest of it is the sweep |
| Sweeps.SweepIsGreedy | src/orderbook.cpp:222-259 | the nested loops give the same trades, remainder and rest as one greedy pass over all offers by price and then place in the queue |
| Sweeps.TradesFollowOffers | src/orderbook.cpp:230-238 | trade k is at the price of offer k, and every trade but the last takes the whole offer |
| Sweeps.OnlyLastPartial | src/orderbook.cpp:244-252 | what rests are the offers behind the last trade, and before them the unfilled part of the last one, if any |
| Sweeps.SweepConserves | src/orderbook.cpp:231-242 | filled plus remaining is what came in, filled plus resting is what rested; as much is filled as is wanted and reachable at the limit, and a remainder accepts nothing that is left |
| Sweeps.SweepOptimal | src/orderbook.cpp:222-259 | no way of taking the same quantity from any of the offers is cheaper (dearer, for a seller) |
| Sweeps.SweepAscends | src/orderbook.cpp:225-227 | trade prices never improve along the sweep, none is beyond the limit, and the total is at most limit times quantity |
| Ladders.SweepKeeps | src/orderbook.cpp:222-259 | the rest is a ladder again: sorted, without empty levels, queues in order of arrival; a remainder means that a level went |
| Ladders.EnqueuePriority | src/orderbook.cpp:33-39 | an order comes to rest behind every offer that is not worse and before every worse one |
| Ladders.WithoutPriority | src/orderbook.cpp:51-60 | cancelling takes exactly the one offer out and leaves the others in order |
| BookSpec.AddProper | src/orderbook.cpp:7-43 | adding keeps the invariant of the book: sorted ladders, no empty level, arrival order, unique identities, pool limits |
| BookSpec.CancelProper | src/orderbook.cpp:45-66 | so does cancelling, and the identity is gone |
| BookSpec.ModifyProper | src/orderbook.cpp:68-82 | so does modifying |
| BookSpec.MatchingFreesLevel | src/orderbook.cpp:254-256 | a match that leaves a remainder has emptied a level |
| BookSpec.AllOrNothing | src/orderbook.cpp:7-43 | an order is accepted exactly if its identity is new, the order pool has room, and it crosses, finds its level or the level pool has room; otherwise no trade happens and the book is as before |
| BookSpec.AddUncrossed | src/orderbook.cpp:19-40 | adding to an uncrossed book crosses it exactly if the order is accepted and the best opposite price it would accept is the invalid price |
| BookSpec.UncrossedEverywhere | src/orderbook.cpp:19-40 | in an uncrossed book every bid is below every ask |
| BookSpec.AddConserves | src/orderbook.cpp:19-42 | what rests plus twice what trades grows by the quantity of an accepted order, and by nothing otherwise |
| BookSpec.CancelConserves | src/orderbook.cpp:45-66 | cancelling takes out exactly what rested of the order |
| BookSpec.ModifyFails | src/orderbook.cpp:68-82 | modifying a live order fails exactly if the level pool is exhausted, the old level keeps other orders, and the new price neither crosses nor has a level; what remains is then the cancellation |
| BookSpec.BestExecution | src/orderbook.cpp:222-259 | in a proper book the trades of an order are the cheapest way to take their quantity, at prices that never improve and never exceed the limit |
| BookSpec.AddPriority | src/orderbook.cpp:33-39 | what is left of an accepted order rests behind every offer of its side that is not worse |
| BookSpec.ModifyPriority | src/orderbook.cpp:68-82 | a modified order leaves its place and comes last among the offers not worse than its new price |
| BookLaws.GreedyFills | src/orderbook.cpp:222-259 | the greedy pass fills the order in turn: trade k is with offer k at its price, for the side of the order and within its limit; all but the last take the whole offer; together they come to the smaller of the order and what is offered at acceptable prices; what rests are the offers less what was taken |
| BookLaws.FillsOnly | src/orderbook.cpp:222-259 | no other trades, and no other rest, fill the order in this sense |
| BookLaws.SameOffers | src/orderbook.cpp:179-203 | two sorted ladders without empty levels and with the same offers in the same order are the same |
| BookLaws.AddLaw | src/orderbook.cpp:7-43 | an order is accepted exactly if its identity does not rest, there is a slot for it, and it meets the other side, finds its level or there is room for one; then the opposite offers fill it, if it meets one, and what is left of it joins its own side behind every offer that is not worse; a rejected one leaves no trace |
| BookLaws.AddOnly | src/orderbook.cpp:7-43 | adding is the only outcome with a proper book of which this is true |
| BookLaws.CancelLaw | src/orderbook.cpp:45-66 | an unknown identity gives false and changes nothing; otherwise one offer with the identity leaves its side, the other side and the clock stay as they are, and nothing trades |
| BookLaws.CancelOnly | src/orderbook.cpp:45-66 | cancelling is the only outcome with a proper book of which this is true |
| BookLaws.ModifyLaw | src/orderbook.cpp:68-82 | an unknown identity gives false, no trade and the book as it was; otherwise the order leaves its side, and to what remains an order of that side and identity is added, with the new price and quantity and all that the law of adding says |
| BookLaws.ModifyOnly | src/orderbook.cpp:68-82 | modifying is the only outcome with a proper book of which this is true |
| Mirror.SweepFlips | src/orderbook.cpp:222-298 | matching a buy order against negated prices is matching a sell order |
| Mirror.AddFlips | src/orderbook.cpp:7-43 | adding to the book with all prices negated and sides exchanged is the mirror image of adding |
| BookRuns.RunProper | src/orderbook.cpp:7-82 | every run from an empty book keeps its invariant |
| BookRuns.NeverCrossed | src/orderbook.cpp:19-40 | after any run without the invalid price every bid is strictly below every ask |
| BookRuns.InvalidPriceCrosses | include/orderbook/types.hpp:20 | a run with the invalid price that leaves the book crossed |
| BookRuns.RunConserves | src/orderbook.cpp:7-82 | over every run, what was accepted equals what rests, plus twice what traded, plus what was cancelled |
| BookRuns.FirstComeFirst | include/orderbook/orderbook.hpp:80-94 | after every run the orders of a level stand in order of arrival |
| LadderSteps.WithoutAt | src/orderbook.cpp:54-60 | taking the order out where it stands, and dropping its level if it was alone, is the specified cancellation |
| LadderSteps.EnqueueOpened | src/orderbook.cpp:191-200 | opening a level in its place and putting the order there is the specified resting |
| Sides.TakeOut | include/orderbook/orderbook.hpp:96-115 | unlinking an order from one level leaves all other levels of the side sound |
| Sides.PutIn | include/orderbook/orderbook.hpp:80-94 | so does linking one in |
| Sides.SideIds | src/orderbook.cpp:7-12 | the identities on the ladder are those of the orders in the queues |
| OrderBooks.OrderBook.constructor | include/orderbook/orderbook.hpp:259-263 | a new book is empty and valid |
| OrderBooks.OrderBook.FillOne | src/orderbook.cpp:230-252 | one turn of the inner loop, with unlinking, map removal and pool release, is one round of the specification |
| OrderBooks.OrderBook.MatchLevel | src/orderbook.cpp:229-253 | the inner loop fills the level as specified |
| OrderBooks.OrderBook.MatchBuyOrder | src/orderbook.cpp:222-259 | terminates with the trades, the remainder and the book of the specified sweep of the asks |
| OrderBooks.OrderBook.MatchSellOrder | src/orderbook.cpp:261-298 | the same for a sweep of the bids |
| OrderBooks.OrderBook.FindOrCreateLevel | src/orderbook.cpp:179-203 | returns the level of the price, new if need be; null exactly if there is none and the level pool is exhausted, and then nothing has changed |
| OrderBooks.OrderBook.RemoveLevel | src/orderbook.cpp:205-212 | an empty level leaves its tree and its slot is free |
| OrderBooks.OrderBook.AddOrder | src/orderbook.cpp:7-43 | keeps the invariant and does what the specification says: the orders accepted, the new trades with their prices, quantities and side, and both sides of the book are those of the law of adding; on failure the map, both free lists and the trades are as before |
| OrderBooks.OrderBook.CancelOrder | src/orderbook.cpp:45-66 | keeps the invariant and does what the specification says: an unknown identity changes nothing, otherwise exactly its offer leaves |
| OrderBooks.OrderBook.ModifyOrder | src/orderbook.cpp:68-82 | keeps the invariant and does what the specification says: an unknown identity returns false and changes neither book nor trades; otherwise the order leaves and one of its side and identity is added, by the law of adding |
| OrderBooks.OrderBook.Replace | src/orderbook.cpp:76-81 | for an order in the map: cancelling it and adding one of its side and identity is the specified modification |
| OrderBooks.OrderBook.LevelsCounted | include/orderbook/orderbook.hpp:58-60 | in a valid book every level has orders, and its total (modulo 2^32) and count are those of its queue |
| OrderBooks.OrderBook.QueuesMatchMap | include/orderbook/orderbook.hpp:304-307 | in a valid book an order stands in a queue, of its own side and price, exactly if the map finds it under its identity |
| OrderBooks.OrderBook.PoolsCounted | include/orderbook/orderbook.hpp:309-310 | in a valid book live orders and levels and the available slots add up to the pools |
| OrderBooks.OrderBook.MapIds | src/orderbook.cpp:10-12 | the map knows exactly the identities that rest in the book |
| OrderBooks.OrderBook.BestBid | src/orderbook.cpp:84-87 | the best bid, or the invalid price |
| OrderBooks.OrderBook.BestAsk | src/orderbook.cpp:89-92 | the best ask, or the invalid price |
| OrderBooks.OrderBook.BestBidQty | src/orderbook.cpp:94-97 | the total of the best bid level modulo 2^32, or 0 |
| OrderBooks.OrderBook.BestAskQty | src/orderbook.cpp:99-102 | the total of the best ask level modulo 2^32, or 0 |
| OrderBooks.OrderBook.GetAsks | src/orderbook.cpp:131-138 | exactly the first n ask levels, or all if there are fewer, each with its price, number of orders and total modulo 2^32, in strictly ascending price |
| OrderBooks.OrderBook.GetBids | src/orderbook.cpp:122-129 | as written: at most the best bid level, with its price, number of orders and total modulo 2^32; that is the first n levels exactly if n or the number of bid levels is at most one |
| MarketDepth.BestOnly | src/orderbook.cpp:122-129 | showing the best level only is showing the first n exactly if n or the number of levels is at most one |
| MarketDepth.PrefixShows | src/orderbook.cpp:131-138 | the first n quotes show price, orders and total of the first n levels, one by one; the first m of them do exactly if n or the number of levels is at most m |
| MarketDepth.SecondBidHidden | src/orderbook.cpp:122-129 | a run of two bids after which two levels are asked for and one is shown |
| OrderBooks.OrderBook.GetBidsBySuccessor | src/orderbook.cpp:122-129 | the repair: exactly the first n bid levels, or all if there are fewer, each with its price, number of orders and total modulo 2^32, in strictly descending price |
| OrderBooks.OrderBook.Sizes | include/orderbook/orderbook.hpp:289-291 | the three counters are the number of live orders and the lengths of the ladders |
| Replays.RunReplay | src/backtester.cpp:243-284 | replaying any messages builds the book, and makes the trades, of the specified run of their commands |
| Replays.ReplayFollows | src/backtester.cpp:243-284 | a replay starts with the empty book; one more message adds, cancels or modifies by its kind, with its identity, side, price and quantity, and its trades follow the earlier ones; with identity or quantity 0, or a market order, it changes nothing |
| SpscInvariant.StepInv | include/orderbook/spsc_queue.hpp:48-82 | every single access of either thread keeps the ring invariant, cached indices and stale loads included |
| SpscInvariant.OneReadable | include/orderbook/spsc_queue.hpp:79 | when the consumer reads a slot, exactly one write is visible to it, and it is the item in turn |
| SpscInvariant.Counters | include/orderbook/spsc_queue.hpp:48-82 | in every interleaving the wrapped indices are the numbers of pushed and popped items modulo the capacity |
| SpscInvariant.PoppedIsPrefix | include/orderbook/spsc_queue.hpp:48-82 | in every interleaving the popped items are a prefix of the pushed ones, and at most capacity - 1 are in flight |
| SpscInvariant.NoOverwrite | include/orderbook/spsc_queue.hpp:61 | the producer never writes a slot with an unread item, nor the one being read |
| SpscInvariant.PushFails | include/orderbook/spsc_queue.hpp:53-57 | a push that loads head_ fails exactly if the items pushed so far are capacity - 1 ahead of the loaded head count; with the newest value exactly if the ring is full, so one that fails on a ring with room has loaded an older value |
| SpscInvariant.PopFails | include/orderbook/spsc_queue.hpp:71-75 | a pop that loads tail_ fails exactly if the loaded tail count is not beyond the items popped so far; with the newest value exactly if the ring is empty, so one that fails on a ring with an item has loaded an older value |
| SpscStale.StalePush | include/orderbook/spsc_queue.hpp:53-57 | a run of a ring for two items that never holds more than one, in which a push fails after a stale load |
| SpscStale.StalePop | include/orderbook/spsc_queue.hpp:71-75 | a run that is never empty after its first item, in which a pop fails after a stale load |
| SpscInvariant.CanStep | include/orderbook/spsc_queue.hpp:48-82 | a thread inside a call can always take its next step, whatever the other one does |
| SpscInvariant.StepsRunOut | include/orderbook/spsc_queue.hpp:48-82 | and each such step brings its own call closer to its end |
| SpscQueues.SpscQueue.Push | include/orderbook/spsc_queue.hpp:48-64 | appends the item, or fails exactly if capacity - 1 items are there |
| SpscQueues.SpscQueue.Pop | include/orderbook/spsc_queue.hpp:67-82 | takes the oldest item, or none exactly if there is none |
| SpscQueues.SpscQueue.PushBulk | include/orderbook/spsc_queue.hpp:85-93 | appends as many items, in order, as the batch size and the room allow |
| Positions.Position.AddFill | src/backtester.cpp:11-56 | all branches, for both sides, come to this: the position moves by the fill; adding keeps the realized profit and makes the average the value held plus the value of the fill over the units then held, cut off toward zero; closing realizes, less the commission, the gain on as many of the units held as the fill has, or on all of them if it is not below their number modulo 2^32, and keeps the average unless the position flips, which takes the price of the fill |
| Positions.EffectOnly | src/backtester.cpp:11-56 | the specified transition is the only one of this kind |
| Positions.PositionNet | src/backtester.cpp:11-56 | after every history the position is what was bought less what was sold |
| Positions.Position.UnrealizedPnl | src/backtester.cpp:58-65 | the units held times the distance of the given price from the average; with the realized profit, the reported profit |
| Positions.AddError | src/backtester.cpp:18-21 | truncating the average costs less than one price unit per unit held after the fill |
| Positions.CloseError | src/backtester.cpp:23-34 | partial, exact and flipping closes add no error, unless the position is cut to 32 bits: then exactly the profit on the units still held |
| Positions.CloseExact | src/backtester.cpp:42-53 | a closing fill keeps the books right exactly if the position is not miscounted or the price equals the average; below 2^32 units it never is |
| Positions.MiscountReached | src/backtester.cpp:42-53 | buying 2^32 - 1 units and one more at 10 and selling one at 12 is miscounted, and at every price the reported profit is then off by the gain of 2 on each of the 2^32 - 1 units still held |
| Positions.SmallPositionsCounted | src/backtester.cpp:23-42 | no fill of a history is miscounted if all positions on the way stay below 2^32 units |
| Positions.AccountingIdentity | src/backtester.cpp:11-65 | for every history without a miscounted fill and every price, realized plus unrealized profit is value minus cash minus charged commissions, up to the sum of the units held after each adding fill |
| Positions.AccountingOneSided | src/backtester.cpp:11-65 | with prices that are not negative, reported profit is too high by at most the units held after each fill that added to a long position, and too low by at most those held after each that added to a short one |
| Vwap.VwapSignalEngine.OnTrade | src/market_data.cpp:156-160 | the sums grow by the trade and are those of the whole history, the 32-bit volume modulo 2^32 |
| Vwap.VwapSignalEngine.CurrentVwap | src/market_data.cpp:162-165 | 0 without volume; otherwise turnover over volume, cut off toward zero: r volumes do not exceed a turnover that is not negative and r + 1 do, and the mirror image below zero; it lies between the lowest and the highest price traded with a positive quantity |
| Vwap.VwapSignalEngine.TotalVolume | include/orderbook/market_data.hpp:94 | the volume of the history modulo 2^32 |
| Vwap.VwapSignalEngine.Reset | src/market_data.cpp:167-171 | the empty history |
| Vwap.Extremes | src/market_data.cpp:162-165 | turnover lies between the lowest and the highest traded price times the volume |
| Drawdown.Tracker.UpdateDrawdown | src/backtester.cpp:343-351 | the drawdown stays the largest fall from an earlier equity value, a first 0 included |
| Drawdown.FallNext | src/backtester.cpp:347-350 | comparing with the peak only is enough to find the largest fall |

## Left out

- IntrusiveTree.IntrusiveRBTree.Remove: says nothing about the heap after a null sibling was read, where the source has undefined behaviour.
- OrderBooks.OrderBook.CancelOrder: uses the repaired removals of the map and of the tree, as does matching; with the removals as written an order can become unfindable and a removal can read a null, and what the whole book then does is not modelled.
- Levels.PriceLevel.AddOrder: the order count is not cut to 32 bits, since a pool holds fewer orders; the total quantity is.
- FlatHashMaps.FlatHashMap.Find: returns the value instead of a pointer into the table; the hash is any function, and a slot number is a remainder, which a mask computes for the power-of-two capacities of the source.
- SpscQueues.SpscQueue.Push: the class runs one call at a time; concurrency is in the protocol lemmas. Capacity is any positive number.
- SpscInvariant.PoppedIsPrefix: atomics are modelled by the modification order of each index and release/acquire visibility of slots; other memory orders are not modelled.
- Positions.AccountingIdentity: doubles are exact numbers, so floating-point rounding is not modelled, and 64-bit positions and prices do not overflow.
- Vwap.VwapSignalEngine.CurrentVwap: the 128-bit sums do not overflow.
- Drawdown.Tracker.UpdateDrawdown: equity values are exact numbers.
- Replays.RunReplay: the moving-average signal that the replay also feeds is not modelled.
- Timestamps and the initial quantity of an order are stored and never read by the book; arrival is the number of orders that came to rest before.
- OrderBook::clear, which does not return orders and levels to their pools, and OrderBook::match_order, which nothing calls.
- mid_price, spread and size_approx: one-line wrappers.
- The simulator, CSV loading, printing, latency statistics, the EMA signal engine and the linear arena: random numbers, input and output, clocks and truncated floating point.
- Pointer casts, alignment, cache lines and placement new: levels carry their links themselves and slots are numbers.
