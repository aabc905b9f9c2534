/** The order book: two trees of levels, a map from identities to orders, and the pools both are taken from. */
module OrderBooks {
  import opened Sequences
  import opened Types
  import opened Options
  import opened Sweeps
  import opened Ladders
  import opened LadderSteps
  import opened BookLaws
  import opened BookSpec
  import opened Levels
  import opened LevelOrder
  import opened MarketDepth
  import opened Sides
  import opened SlotUse
  import opened IntrusiveTree
  import opened FlatHashMaps
  import opened ObjectPools

  class OrderBook {
    const maxOrders: nat
    const maxLevels: nat
    const bidTree: IntrusiveRBTree
    const askTree: IntrusiveRBTree
    const orderMap: FlatHashMap<OrderId, Order>
    const orderPool: ObjectPool
    const levelPool: ObjectPool
    /** The resting orders of each side, and how many have come to rest so far. */
    ghost var bidOrders: set<Order>
    ghost var askOrders: set<Order>
    ghost var clock: nat

    constructor (maxOrders: nat, maxLevels: nat, mapCapacity: nat, hash: OrderId -> nat)
      requires 0 < mapCapacity && maxOrders <= mapCapacity
      ensures Valid() && View() == EMPTY && Lim() == Limits(maxOrders, maxLevels)
      ensures Repr() == Parts() && fresh(bidTree) && fresh(askTree) && fresh(orderMap) && fresh(orderMap.entries)
      ensures fresh(orderPool) && fresh(orderPool.next) && fresh(levelPool) && fresh(levelPool.next)
    {
      hide Valid, View, Repr, IntrusiveRBTree.Valid, IntrusiveRBTree.Contents;
      hide FlatHashMap.Valid, FlatHashMap.Counted, ObjectPool.Valid;
      this.maxOrders, this.maxLevels := maxOrders, maxLevels;
      bidTree := new IntrusiveRBTree(Buy);
      askTree := new IntrusiveRBTree(Sell);
      orderMap := new FlatHashMap(mapCapacity, hash);
      orderPool := new ObjectPool(maxOrders);
      levelPool := new ObjectPool(maxLevels);
      bidOrders, askOrders, clock := {}, {}, 0;
      new;
      NewBook();
    }

    /** Empty trees, an empty map and full pools make an empty book. */
    lemma {:induction false} NewBook()
      requires bidTree != askTree && bidTree.side == Buy && askTree.side == Sell
      requires bidTree.Valid() && bidTree.Contents() == [] && askTree.Valid() && askTree.Contents() == []
      requires orderMap.Valid() && orderMap.contents == map[] && maxOrders <= orderMap.capacity
      requires orderPool != levelPool && orderPool.next != levelPool.next
      requires orderPool.Valid() && orderPool.poolSize == orderPool.available == maxOrders
      requires levelPool.Valid() && levelPool.poolSize == levelPool.available == maxLevels
      requires bidOrders == {} && askOrders == {} && clock == 0
      ensures Valid() && View() == EMPTY
      ensures Repr() == Parts()
    {
      hide SideSound, LadderOf, IntrusiveRBTree.Valid, IntrusiveRBTree.Contents, FlatHashMap.Valid;
      EmptySide(bidTree);
      EmptySide(askTree);
    }

    // ---------- the orders: map and pool ----------

    /** The map finds exactly the resting orders; resting and busy ones have slots of their own, and with the free
        slots they make up the pool. A busy order is being matched and does not rest yet. */
    ghost predicate Ledger(orders: set<Order>, busy: set<Order>)
      reads orderMap, orderMap.entries, orderPool, orderPool.next
    {
      && orderMap.Valid() && orderPool.Valid() && orderPool.poolSize == maxOrders <= orderMap.capacity
      && Indexed(orders, orderMap.contents) && OrderSlots(orders + busy, orderPool.free, maxOrders) && orders !! busy
      && |orderMap.contents| + |busy| + |orderPool.free| == maxOrders
    }

    method AcquireOrder(ghost orders: set<Order>, id: OrderId, side: Side, price: Price, quantity: Quantity,
        ghost arrival: nat)
        returns (order: Order?)
      requires Ledger(orders, {})
      modifies orderPool
      ensures order == null ==> Ledger(orders, {}) && old(orderPool.free) == [] == orderPool.free
      ensures order != null ==>
        fresh(order) && Ledger(orders, {order}) && old(orderPool.free) == [order.slot] + orderPool.free
      ensures order != null ==>
        order.id == id && order.side == side && order.price == price && order.quantity == quantity
      ensures order != null ==> order.arrival == arrival
    {
      hide OrderSlots, Indexed, ObjectPool.Valid, FlatHashMap.Valid;
      ghost var free := orderPool.free;
      var slot := orderPool.Acquire();
      if slot == NULL {
        return null;
      }
      order := new Order(slot, id, side, price, quantity, arrival);
      OrderAcquired(orders, order, free, orderPool.free, maxOrders);
      assert orders + {} == orders;
    }

    method ReleaseOrder(ghost orders: set<Order>, order: Order)
      requires Ledger(orders, {order})
      modifies orderPool, orderPool.next
      ensures Ledger(orders, {}) && orderPool.free == [order.slot] + old(orderPool.free)
    {
      hide OrderSlots, Indexed, ObjectPool.Valid, FlatHashMap.Valid;
      OrderReleased(orders + {order}, order, orderPool.free, maxOrders);
      orderPool.Release(order.slot);
      assert orders + {order} - {order} == orders + {};
    }

    /** An order that has left its queue is forgotten: its map entry is removed and its slot released. */
    method Forget(ghost orders: set<Order>, ghost busy: set<Order>, order: Order)
      requires Ledger(orders, busy) && order in orders
      modifies orderMap, orderMap.entries, orderPool, orderPool.next
      ensures Ledger(orders - {order}, busy) && orderMap.contents == old(orderMap.contents) - {order.id}
    {
      hide OrderSlots, Indexed, ObjectPool.Valid, FlatHashMap.Valid;
      IndexedLess(orders, orderMap.contents, order);
      OrderReleased(orders + busy, order, orderPool.free, maxOrders);
      var removed := orderMap.RemoveShift(order.id);
      orderPool.Release(order.slot);
      assert orders + busy - {order} == (orders - {order}) + busy;
    }

    /** A busy order comes to rest. */
    method Register(ghost orders: set<Order>, order: Order)
      requires Ledger(orders, {order}) && order.id !in orderMap.contents
      modifies orderMap, orderMap.entries
      ensures Ledger(orders + {order}, {}) && orderMap.contents == old(orderMap.contents)[order.id := order]
    {
      hide OrderSlots, Indexed, ObjectPool.Valid, FlatHashMap.Valid, FlatHashMap.Counted;
      IndexedMore(orders, orderMap.contents, order);
      orderMap.ValidCounted();
      var inserted := orderMap.Insert(order.id, order);
      assert orders + {order} + {} == orders + {order};
    }

    // ---------- matching one level ----------

    /** One round of the inner loop: the incoming order trades with the first order of the level. */
    method FillOne(order: Order, resting: Order, level: PriceLevel, ghost levels: set<PriceLevel>,
        ghost orders: set<Order>, ghost others: set<Order>)
        returns (trade: Trade, next: Order?, ghost orders': set<Order>)
      requires Stocked(Opposite(order.side), levels, orders) && level in levels && level.head == resting
      requires Ledger(orders + others, {order}) && orders !! others && order !in orders
      modifies order`quantity, level`totalQuantity, level`orderCount, level`head, level`tail, level`queue
      modifies level`orders, level`view
      modifies level.orders`quantity, level.orders`next, level.orders`prev, level.orders`level
      modifies orderMap, orderMap.entries, orderPool, orderPool.next
      ensures Stocked(Opposite(order.side), levels, orders') && Ledger(orders' + others, {order}) && orders' <= orders
      ensures old(level.view) != []
      ensures Swept([trade], order.quantity, level.view) ==
        Round(order.side, level.price, old(order.quantity), old(level.view))
      ensures order.quantity > 0 ==> next == level.head && |level.queue| < |old(level.queue)|
      ensures |level.queue| <= |old(level.queue)|
      ensures level.orders <= old(level.orders)
    {
      hide Stocked, Shelved, Housed, Ledger, PriceLevel.Sound;
      ghost var side, view, queue := Opposite(order.side), level.view, level.queue;
      Head(side, levels, orders, level);
      var matchQty := Min(order.quantity, resting.quantity);
      trade := Trade(resting.price, matchQty, order.side);
      order.quantity := order.quantity - matchQty;
      FillFirst(side, levels, orders, level, resting, matchQty);
      next := resting.next;
      orders' := orders;
      if resting.quantity == 0 {
        TakeOut(side, levels, orders, level, resting, 0);
        Head(side, levels, orders - {resting}, level);
        Forget(orders + others, {order}, resting);
        assert orders + others - {resting} == (orders - {resting}) + others;
        orders' := orders - {resting};
      }
    }

    /** The inner loop of matching, the same for both sides: the level is filled order by order. */
    method MatchLevel(order: Order, level: PriceLevel, ghost levels: set<PriceLevel>, ghost orders: set<Order>,
        ghost others: set<Order>, trades: seq<Trade>)
        returns (trades': seq<Trade>, ghost orders': set<Order>)
      requires Stocked(Opposite(order.side), levels, orders) && level in levels
      requires Ledger(orders + others, {order}) && orders !! others && order !in orders
      modifies order`quantity, level`totalQuantity, level`orderCount, level`head, level`tail, level`queue
      modifies level`orders, level`view
      modifies level.orders`quantity, level.orders`next, level.orders`prev, level.orders`level
      modifies orderMap, orderMap.entries, orderPool, orderPool.next
      ensures Stocked(Opposite(order.side), levels, orders') && Ledger(orders' + others, {order}) && orders' <= orders
      ensures Swept(trades', order.quantity, level.view) ==
              Following(trades, FillLevel(order.side, level.price, old(order.quantity), old(level.view)))
    {
      hide Stocked, Shelved, Housed, Ledger, PriceLevel.Sound;
      ghost var goal := Following(trades, FillLevel(order.side, level.price, order.quantity, level.view));
      Head(Opposite(order.side), levels, orders, level);
      var resting := level.head;
      trades', orders' := trades, orders;
      while resting != null && order.quantity > 0
        invariant Stocked(Opposite(order.side), levels, orders') && Ledger(orders' + others, {order}) &&
          orders' <= orders
        invariant level.orders <= old(level.orders)
        invariant order.quantity > 0 ==> resting == level.head
        invariant Following(trades', FillLevel(order.side, level.price, order.quantity, level.view)) == goal
        decreases |level.queue|, order.quantity
      {
        Head(Opposite(order.side), levels, orders', level);
        FillRound(order.side, level.price, order.quantity, level.view);
        var trade;
        trade, resting, orders' := FillOne(order, resting, level, levels, orders', others);
        FollowingBoth(trades', [trade], FillLevel(order.side, level.price, order.quantity, level.view));
        trades' := trades' + [trade];
      }
      Head(Opposite(order.side), levels, orders', level);
      FollowingNothing(trades', Swept([], order.quantity, level.view));
    }

    // ---------- the whole book ----------

    /** The levels in the trees have slots of their own, and with the free slots they make up the pool. */
    ghost predicate LevelLedger(levels: set<PriceLevel>, count: nat)
      reads levelPool, levelPool.next
    {
      && levelPool.Valid() && levelPool.poolSize == maxLevels
      && LevelSlots(levels, levelPool.free, maxLevels) && count + |levelPool.free| == maxLevels
    }

    /** The parts of the book are different objects, and no level or order is on both sides. */
    ghost predicate Separated()
      reads this, bidTree`members, askTree`members
    {
      && bidTree != askTree && bidTree.side == Buy && askTree.side == Sell
      && orderPool != levelPool && orderPool.next != levelPool.next
      && bidTree.members !! askTree.members && bidOrders !! askOrders
    }

    ghost function Parts(): set<object> {
      {this, bidTree, askTree, orderMap, orderMap.entries, orderPool, orderPool.next, levelPool, levelPool.next}
    }

    ghost function Repr(): set<object>
      reads this, bidTree`members, askTree`members
    {
      Parts() + bidTree.members + askTree.members + bidOrders + askOrders
    }

    ghost function Occupied(): nat
      reads bidTree, askTree
    {
      |bidTree.Contents()| + |askTree.Contents()|
    }

    /** Both sides are sound, and their levels are those of the pool that are in use. */
    ghost predicate Structure()
      reads this, bidTree, askTree, bidTree.members, askTree.members, bidOrders, askOrders, levelPool, levelPool.next
    {
      && Separated() && SideSound(bidTree, bidOrders) && SideSound(askTree, askOrders)
      && LevelLedger(bidTree.members + askTree.members, Occupied())
    }

    /** The orders of both sides are those the map finds, and besides the busy ones those of the pool in use. */
    ghost predicate Consistent(busy: set<Order>)
      reads Repr()
    {
      Structure() && Ledger(bidOrders + askOrders, busy) && busy !! bidOrders + askOrders
    }

    /** The value the book stands for. */
    ghost function View(): Book
      reads this, bidTree, askTree, bidTree.members`view, askTree.members`view
    {
      Book(LadderOf(bidTree), LadderOf(askTree), clock)
    }

    lemma {:induction false} PartsSeparated()
      requires Structure()
      ensures Separated()
    {
    }

    // ---------- levels ----------

    method ReleaseLevel(ghost levels: set<PriceLevel>, ghost count: nat, level: PriceLevel)
      requires LevelLedger(levels, count) && level in levels && count > 0
      modifies levelPool, levelPool.next
      ensures LevelLedger(levels - {level}, count - 1)
    {
      hide LevelSlots, ObjectPool.Valid;
      LevelReleased(levels, level, levelPool.free, maxLevels);
      levelPool.Release(level.slot);
    }

    method RemoveLevel(level: PriceLevel, side: Side, ghost i: nat)
      requires Structure()
      requires var t := if side.Buy? then bidTree else askTree;
        i < |t.Contents()| && t.Contents()[i] == level && level.orders == {} && level in t.members
      modifies bidTree, askTree, bidTree.members`hook, askTree.members`hook, levelPool, levelPool.next
      ensures Structure() && bidTree.members <= old(bidTree.members) && askTree.members <= old(askTree.members)
      ensures side.Buy? ==> |bidTree.Contents()| < |old(bidTree.Contents())|
      ensures side.Sell? ==> |askTree.Contents()| < |old(askTree.Contents())|
      ensures i < |Ladder(old(View()), side)| &&
        View() == WithLadder(old(View()), side, Omit(Ladder(old(View()), side), i))
    {
      hide SideSound, LevelLedger, LadderOf;
      if side.Buy? {
        CloseLevel(bidTree, bidOrders, level, i);
      } else {
        CloseLevel(askTree, askOrders, level, i);
      }
      ReleaseLevel(old(bidTree.members + askTree.members), old(Occupied()), level);
      assert bidTree.members + askTree.members == old(bidTree.members + askTree.members) - {level};
    }

    // ---------- matching ----------

    ghost function OrdersOn(side: Side): set<Order>
      reads this
    {
      if side.Buy? then bidOrders else askOrders
    }

    function Tree(side: Side): IntrusiveRBTree { if side.Buy? then bidTree else askTree }

    /** The first level of a side is filled, order by order. */
    method MatchFirst(t: IntrusiveRBTree, ghost orders: set<Order>, ghost others: set<Order>, order: Order,
        level: PriceLevel, trades: seq<Trade>)
        returns (trades': seq<Trade>, ghost orders': set<Order>)
      requires SideSound(t, orders) && t.side == Opposite(order.side) && level in t.members
      requires t.Contents() != [] && t.Contents()[0] == level
      requires Ledger(orders + others, {order}) && orders !! others && order !in orders
      modifies order`quantity, level`totalQuantity, level`orderCount, level`head, level`tail, level`queue
      modifies level`orders, level`view
      modifies level.orders`quantity, level.orders`next, level.orders`prev, level.orders`level
      modifies orderMap, orderMap.entries, orderPool, orderPool.next
      ensures SideSound(t, orders') && Ledger(orders' + others, {order}) && orders' <= orders &&
        old(level.orders) <= orders
      ensures level.head == null <==> level.view == []
      ensures level.view == [] ==> level.orders == {}
      ensures Swept(trades', order.quantity, level.view) ==
              Following(trades, FillLevel(order.side, level.price, old(order.quantity), old(level.view)))
      ensures old(LadderOf(t)) != [] && LadderOf(t) == old(LadderOf(t))[0 := Level(level.price, level.view)]
    {
      hide IntrusiveRBTree.Valid, IntrusiveRBTree.Contents, Stocked, Ledger, FillLevel;
      ghost var m := HeapViews(t.members);
      Head(t.side, t.members, orders, level);
      trades', orders' := MatchLevel(order, level, t.members, orders, others, trades);
      Head(t.side, t.members, orders', level);
      LadderChanged(t, m, 0);
    }

    /** The best opposite level is filled, order by order. */
    method MatchBest(order: Order, level: PriceLevel, trades: seq<Trade>) returns (trades': seq<Trade>)
      requires Structure() && Ledger(bidOrders + askOrders, {order}) && order !in bidOrders + askOrders
      requires var t := Tree(Opposite(order.side)); t.Contents() != [] && t.Contents()[0] == level && level in t.members
      modifies this`bidOrders, this`askOrders, order`quantity
      modifies level`totalQuantity, level`orderCount, level`head, level`tail, level`queue, level`orders, level`view
      modifies level.orders`quantity, level.orders`next, level.orders`prev, level.orders`level
      modifies orderMap, orderMap.entries, orderPool, orderPool.next
      ensures Structure() && Ledger(bidOrders + askOrders, {order}) && order !in bidOrders + askOrders
      ensures bidOrders <= old(bidOrders) && askOrders <= old(askOrders)
      ensures level.head == null <==> level.view == []
      ensures level.view == [] ==> level.orders == {}
      ensures Swept(trades', order.quantity, level.view) ==
              Following(trades, FillLevel(order.side, level.price, old(order.quantity), old(level.view)))
      ensures var side := Opposite(order.side);
        && Ladder(old(View()), side) != []
        && View() == WithLadder(old(View()), side, Ladder(old(View()), side)[0 := Level(level.price, level.view)])
    {
      hide SideSound, LadderOf, IntrusiveRBTree.Contents, LevelLedger, Ledger, FillLevel;
      assert Separated();
      hide Separated;
      assert bidOrders + askOrders == askOrders + bidOrders;
      if order.side.Buy? {
        trades', askOrders := MatchFirst(askTree, askOrders, bidOrders, order, level, trades);
      } else {
        trades', bidOrders := MatchFirst(bidTree, bidOrders, askOrders, order, level, trades);
      }
      assert bidOrders + askOrders == askOrders + bidOrders;
    }

    /** One turn of the outer loop: the best opposite level is filled, and removed if it is empty then. */
    method MatchRound(order: Order, best: PriceLevel, trades: seq<Trade>) returns (trades': seq<Trade>)
      requires Consistent({order}) && order.quantity > 0 && Acceptable(order.side, order.price, best.price)
      requires var t := Tree(Opposite(order.side)); t.Contents() != [] && t.Contents()[0] == best
      modifies this`bidOrders, this`askOrders, order`quantity, bidOrders, askOrders
      modifies bidTree, askTree, bidTree.members, askTree.members, levelPool, levelPool.next
      modifies orderMap, orderMap.entries, orderPool, orderPool.next
      ensures Consistent({order}) && bidOrders <= old(bidOrders) && askOrders <= old(askOrders)
      ensures bidTree.members <= old(bidTree.members) && askTree.members <= old(askTree.members)
      ensures var t := Tree(Opposite(order.side));
        |t.Contents()| < |old(t.Contents())| || (|t.Contents()| == |old(t.Contents())| && order.quantity == 0)
      ensures var side := Opposite(order.side);
        && View() == WithLadder(old(View()), side, Ladder(View(), side))
        && Following(trades', Sweep(order.side, order.price, order.quantity, Ladder(View(), side))) ==
           Following(trades, Sweep(order.side, order.price, old(order.quantity), Ladder(old(View()), side)))
    {
      hide Structure, Ledger, View, IntrusiveRBTree.Valid, IntrusiveRBTree.Sound, IntrusiveRBTree.Contents, Sweep;
      hide FillLevel;
      hide Omit, Acceptable, LadderOf, Separated;
      ghost var side := Opposite(order.side);
      ghost var f := FillLevel(order.side, best.price, order.quantity, best.view);
      BestFacts(side);
      SweepFirst(order.side, order.price, order.quantity, Ladder(View(), side));
      trades' := MatchBest(order, best, trades);
      if best.Vacant() {
        OmitFirst(Ladder(old(View()), side), Level(best.price, best.view));
        PartsSeparated();
        RemoveLevel(best, Opposite(order.side), 0);
      }
      FollowingBoth(trades, f.trades, Sweep(order.side, order.price, order.quantity, Ladder(View(), side)));
    }

    method MatchBuyOrder(order: Order, trades: seq<Trade>) returns (trades': seq<Trade>)
      requires Consistent({order}) && order.side == Buy
      modifies Repr(), order
      ensures Consistent({order}) && bidOrders <= old(bidOrders) && askOrders <= old(askOrders)
      ensures bidTree.members <= old(bidTree.members) && askTree.members <= old(askTree.members)
      ensures var s := Sweep(Buy, order.price, old(order.quantity), Ladder(old(View()), Sell));
        trades' == trades + s.trades && order.quantity == s.left && View() == WithLadder(old(View()), Sell, s.rest)
    {
      hide Structure, Ledger, View, IntrusiveRBTree.Valid, IntrusiveRBTree.Sound, IntrusiveRBTree.Contents, Sweep;
      trades' := trades;
      ghost var goal := Following(trades, Sweep(Buy, order.price, order.quantity, Ladder(View(), Sell)));
      BestFacts(Sell);
      while order.quantity > 0
        invariant Consistent({order}) && bidOrders <= old(bidOrders) && askOrders <= old(askOrders)
        invariant bidTree.members <= old(bidTree.members) && askTree.members <= old(askTree.members)
        invariant Following(trades', Sweep(Buy, order.price, order.quantity, Ladder(View(), Sell))) == goal
        invariant View() == WithLadder(old(View()), Sell, Ladder(View(), Sell))
        decreases |askTree.Contents()|, order.quantity
      {
        BestFacts(Sell);
        var best := askTree.Minimum();
        if best == null || best.price > order.price {
          break;
        }
        trades' := MatchRound(order, best, trades');
      }
      SweepStops(Buy, order.price, order.quantity, Ladder(View(), Sell), trades');
    }

    method MatchSellOrder(order: Order, trades: seq<Trade>) returns (trades': seq<Trade>)
      requires Consistent({order}) && order.side == Sell
      modifies Repr(), order
      ensures Consistent({order}) && bidOrders <= old(bidOrders) && askOrders <= old(askOrders)
      ensures bidTree.members <= old(bidTree.members) && askTree.members <= old(askTree.members)
      ensures var s := Sweep(Sell, order.price, old(order.quantity), Ladder(old(View()), Buy));
        trades' == trades + s.trades && order.quantity == s.left && View() == WithLadder(old(View()), Buy, s.rest)
    {
      hide Structure, Ledger, View, IntrusiveRBTree.Valid, IntrusiveRBTree.Sound, IntrusiveRBTree.Contents, Sweep;
      trades' := trades;
      ghost var goal := Following(trades, Sweep(Sell, order.price, order.quantity, Ladder(View(), Buy)));
      while order.quantity > 0
        invariant Consistent({order}) && bidOrders <= old(bidOrders) && askOrders <= old(askOrders)
        invariant bidTree.members <= old(bidTree.members) && askTree.members <= old(askTree.members)
        invariant Following(trades', Sweep(Sell, order.price, order.quantity, Ladder(View(), Buy))) == goal
        invariant View() == WithLadder(old(View()), Buy, Ladder(View(), Buy))
        decreases |bidTree.Contents()|, order.quantity
      {
        BestFacts(Buy);
        var best := bidTree.Minimum();
        if best == null || best.price < order.price {
          break;
        }
        trades' := MatchRound(order, best, trades');
      }
      SweepStops(Sell, order.price, order.quantity, Ladder(View(), Buy), trades');
    }

    lemma {:induction false} BestFacts(side: Side)
      requires Structure()
      ensures Tree(side).Valid() && Tree(side).Sound() && |Ladder(View(), side)| == |Tree(side).Contents()|
      ensures Tree(side).Contents() != [] ==>
        var l := Tree(side).Contents()[0];
        l in Tree(side).members && l.orders <= OrdersOn(side) && Ladder(View(), side)[0] == Level(l.price, l.view)
    {
      hide LevelLedger;
      TreeFacts(Tree(side));
    }

    // ---------- coming to rest ----------

    method AcquireLevel(ghost levels: set<PriceLevel>, ghost count: nat, price: Price, side: Side)
        returns (level: PriceLevel?)
      requires LevelLedger(levels, count)
      modifies levelPool
      ensures level == null ==>
        LevelLedger(levels, count) && count == maxLevels && levelPool.free == old(levelPool.free)
      ensures level != null ==> fresh(level) && LevelLedger(levels + {level}, count + 1) && count < maxLevels
      ensures level != null ==>
        level.price == price && level.side == side && level.Sound() && level.orders == {} && level.view == []
    {
      hide LevelSlots, ObjectPool.Valid;
      ghost var free := levelPool.free;
      var slot := levelPool.Acquire();
      if slot == NULL {
        return null;
      }
      level := new PriceLevel(slot, price, side);
      LevelAcquired(levels, level, free, levelPool.free, maxLevels);
    }

    method FindOrCreateLevel(price: Price, side: Side, ghost o: Resting) returns (level: PriceLevel?, ghost i: nat)
      requires Structure()
      modifies bidTree, askTree, bidTree.members`hook, askTree.members`hook, levelPool
      ensures Structure() && fresh(bidTree.members + askTree.members - old(bidTree.members + askTree.members))
      ensures level == null ==> View() == old(View()) && levelPool.free == old(levelPool.free)
      ensures level == null <==> !HasPrice(Ladder(old(View()), side), price) && old(Occupied()) == maxLevels
      ensures level != null ==>
        var t, before, after := Tree(side), Ladder(old(View()), side), Ladder(View(), side);
        && i < |t.Contents()| == |after| && t.Contents()[i] == level && level in t.members && level.price == price
        && View() == WithLadder(old(View()), side, after)
        && Enqueue(side, before, price, o) == after[i := Level(price, level.view + [o])]
    {
      hide SideSound, LevelLedger, LadderOf, HasPrice, Enqueue, Absent, IntrusiveRBTree.Contents, PriceLevel.Sound;
      if side.Buy? {
        level, i := FindLevelOf(bidTree, bidOrders, price, o);
      } else {
        level, i := FindLevelOf(askTree, askOrders, price, o);
      }
      if level == null {
        level, i := CreateLevel(price, side, o);
      }
    }

    method CreateLevel(price: Price, side: Side, ghost o: Resting) returns (level: PriceLevel?, ghost i: nat)
      requires Structure() && Absent(Tree(side).members, price)
      modifies bidTree, askTree, bidTree.members`hook, askTree.members`hook, levelPool
      ensures Structure() && fresh(bidTree.members + askTree.members - old(bidTree.members + askTree.members))
      ensures level == null ==> View() == old(View()) && levelPool.free == old(levelPool.free)
      ensures level == null <==> old(Occupied()) == maxLevels
      ensures level != null ==>
        var t, before, after := Tree(side), Ladder(old(View()), side), Ladder(View(), side);
        && i < |t.Contents()| == |after| && t.Contents()[i] == level && level in t.members && level.price == price
        && View() == WithLadder(old(View()), side, after)
        && Enqueue(side, before, price, o) == after[i := Level(price, level.view + [o])]
    {
      hide SideSound, LevelLedger, LadderOf, HasPrice, Enqueue, Absent, IntrusiveRBTree.Contents, PriceLevel.Sound;
      ghost var levels := bidTree.members + askTree.members;
      i := 0;
      level := AcquireLevel(levels, Occupied(), price, side);
      if level == null {
        return;
      }
      if side.Buy? {
        i := OpenLevelFor(bidTree, bidOrders, level, o);
      } else {
        i := OpenLevelFor(askTree, askOrders, level, o);
      }
      assert bidTree.members + askTree.members == levels + {level};
      assert [] + [o] == [o];
    }

    /** The order joins a level of its side. */
    method Seat(order: Order, level: PriceLevel, ghost i: nat)
      requires Structure() && order.price == level.price && order !in bidOrders + askOrders
      requires var t := Tree(order.side); i < |t.Contents()| && t.Contents()[i] == level && level in t.members
      modifies this`bidOrders, this`askOrders, this`clock, order`next, order`prev, order`level, level.orders`next
      modifies level`totalQuantity, level`orderCount, level`head, level`tail, level`queue, level`orders, level`view
      ensures Structure() && bidOrders + askOrders == old(bidOrders + askOrders) + {order}
      ensures old(level.orders) <= old(bidOrders + askOrders)
      ensures i < |Ladder(old(View()), order.side)|
      ensures var queue := old(level.view) + [Resting(order.id, order.quantity, order.arrival)];
        var levels := Ladder(old(View()), order.side)[i := Level(level.price, queue)];
        View() == WithLadder(old(View()), order.side, levels).(clock := old(clock) + 1)
    {
      hide SideSound, LevelLedger, LadderOf, IntrusiveRBTree.Contents;
      assert Separated();
      hide Separated;
      clock := clock + 1;
      if order.side.Buy? {
        PutInAt(bidTree, bidOrders, level, order, i);
        bidOrders := bidOrders + {order};
      } else {
        PutInAt(askTree, askOrders, level, order, i);
        askOrders := askOrders + {order};
      }
    }

    // ---------- the book as a value ----------

    ghost function Lim(): Limits { Limits(maxOrders, maxLevels) }

    lemma {:induction false} Counts()
      requires Structure()
      ensures LevelCount(View()) == Occupied() <= maxLevels
    {
      TreeFacts(bidTree);
      TreeFacts(askTree);
    }

    /** The map knows exactly the identities that rest in the book. */
    lemma {:induction false} MapIds(id: OrderId, busy: set<Order>)
      requires Structure() && Ledger(bidOrders + askOrders, busy)
      ensures id in OrderIds(View()) <==> id in orderMap.contents
    {
      hide SideSound, LadderOf, FlatHashMap.Valid, ObjectPool.Valid, OrderSlots;
      SideIds(bidTree, bidOrders, id);
      SideIds(askTree, askOrders, id);
      if id in orderMap.contents {
        assert orderMap.contents[id] in bidOrders + askOrders;
      }
    }

    lemma {:induction false} OnceCount(ids: multiset<OrderId>, keys: set<OrderId>)
      requires Once(ids) && forall id :: id in ids <==> id in keys
      ensures |ids| == |keys|
    {
      assert ids == multiset(keys);
    }

    /** The order pool is exhausted exactly when the book holds as many orders as it may. */
    lemma {:induction false} PoolExhausted()
      requires Structure() && Ledger(bidOrders + askOrders, {}) && Once(OrderIds(View()))
      ensures |OrderIds(View())| == |orderMap.contents| && |OrderIds(View())| + |orderPool.free| == maxOrders
    {
      hide Structure, View;
      forall id ensures id in OrderIds(View()) <==> id in orderMap.contents.Keys {
        MapIds(id, {});
      }
      OnceCount(OrderIds(View()), orderMap.contents.Keys);
    }

    // ---------- adding ----------

    lemma {:induction false} OrdersOfLevel(side: Side, level: PriceLevel)
      requires Structure() && level in Tree(side).members
      ensures level.orders <= OrdersOn(side) <= bidOrders + askOrders
    {
      OrdersWithin(Tree(side), OrdersOn(side), level);
    }

    /** The order joins a level, and the map learns about it. */
    method Enlist(order: Order, level: PriceLevel, ghost i: nat)
      requires Structure() && Ledger(bidOrders + askOrders, {order}) && order !in bidOrders + askOrders
      requires order.id !in orderMap.contents && order.price == level.price
      requires var t := Tree(order.side); i < |t.Contents()| && t.Contents()[i] == level && level in t.members
      modifies this`bidOrders, this`askOrders, this`clock, order`next, order`prev, order`level, level.orders`next
      modifies level`totalQuantity, level`orderCount, level`head, level`tail, level`queue, level`orders, level`view
      modifies orderMap, orderMap.entries
      ensures Structure() && Ledger(bidOrders + askOrders, {})
      ensures bidOrders + askOrders == old(bidOrders + askOrders) + {order}
      ensures i < |Ladder(old(View()), order.side)|
      ensures var queue := old(level.view) + [Resting(order.id, order.quantity, order.arrival)];
        var levels := Ladder(old(View()), order.side)[i := Level(level.price, queue)];
        View() == WithLadder(old(View()), order.side, levels).(clock := old(clock) + 1)
    {
      hide Structure, Ledger, LadderOf, IntrusiveRBTree.Contents;
      Seat(order, level, i);
      Register(old(bidOrders + askOrders), order);
    }

    /** The order joins the level that was found or opened for it: in all, it has come to rest in the book b. */
    method Settle(order: Order, level: PriceLevel, ghost i: nat, ghost b: Book, ghost o: Resting,
        ghost trades: seq<Trade>)
      requires Structure() && Ledger(bidOrders + askOrders, {order}) && order !in bidOrders + askOrders
      requires order.id !in orderMap.contents && order.price == level.price
      requires o == Resting(order.id, order.quantity, order.arrival) && o.arrival == b.clock == clock
      requires HasPrice(Ladder(b, order.side), order.price) || LevelCount(b) < Lim().levels
      requires var t, levels := Tree(order.side), Ladder(View(), order.side);
        && i < |t.Contents()| == |levels| && t.Contents()[i] == level && level in t.members
        && View() == WithLadder(b, order.side, levels)
        && Enqueue(order.side, Ladder(b, order.side), order.price, o) ==
          levels[i := Level(order.price, level.view + [o])]
      modifies this`bidOrders, this`askOrders, this`clock, order`next, order`prev, order`level, bidOrders, askOrders
      modifies bidTree.members, askTree.members, orderMap, orderMap.entries
      ensures Structure() && Ledger(bidOrders + askOrders, {})
      ensures bidOrders + askOrders == old(bidOrders + askOrders) + {order}
      ensures var r := Rest(Lim(), b, o.id, order.side, order.price, o.qty, trades); View() == r.book && r.ok
    {
      hide Structure, Ledger, LadderOf, View, Enqueue, HasPrice, IntrusiveRBTree.Contents, Separated, OrdersOn;
      OrdersOfLevel(order.side, level);
      RestSteps(Lim(), b, o, order.side, order.price, trades, Ladder(View(), order.side), i, level.view);
      hide Rest, WithLadder, Ladder;
      Enlist(order, level, i);
    }

    /** The order can come to rest exactly if its price has a level or there is room for one. */
    lemma {:induction false} RestFacts(o: Resting, side: Side, price: Price, trades: seq<Trade>)
      requires Structure()
      ensures Separated() && View().clock == clock
      ensures var has := HasPrice(Ladder(View(), side), price);
        if has || Occupied() != maxLevels then has || LevelCount(View()) < Lim().levels
        else Rest(Lim(), View(), o.id, side, price, o.qty, trades) == Outcome(View(), trades, false)
    {
      Counts();
    }

    /** What is left of the order comes to rest, if there is a level for it. */
    method RestOrder(order: Order, ghost trades: seq<Trade>) returns (ok: bool)
      requires Structure() && Ledger(bidOrders + askOrders, {order}) && order !in bidOrders + askOrders
      requires order.id !in orderMap.contents && order.arrival == clock
      modifies this`bidOrders, this`askOrders, this`clock, order, bidOrders, askOrders
      modifies bidTree, askTree, bidTree.members, askTree.members, levelPool
      modifies orderMap, orderMap.entries, orderPool, orderPool.next
      ensures Structure() && Ledger(bidOrders + askOrders, {}) &&
        bidOrders + askOrders <= old(bidOrders + askOrders) + {order}
      ensures fresh(bidTree.members + askTree.members - old(bidTree.members + askTree.members))
      ensures var r := Rest(Lim(), old(View()), order.id, order.side, order.price, old(order.quantity), trades);
        View() == r.book && ok == r.ok
      ensures !ok ==> orderPool.free == [order.slot] + old(orderPool.free) && levelPool.free == old(levelPool.free)
      ensures !ok ==> orderMap.contents == old(orderMap.contents)
    {
      hide *;
      ghost var o := Resting(order.id, order.quantity, order.arrival);
      RestFacts(o, order.side, order.price, trades);
      var level, i := FindOrCreateLevel(order.price, order.side, o);
      if level == null {
        ReleaseOrder(bidOrders + askOrders, order);
        return false;
      }
      Settle(order, level, i, old(View()), o, trades);
      ok := true;
    }

    method BestBid() returns (price: Price)
      requires Structure()
      ensures price == Best(Ladder(View(), Buy))
      ensures price == if View().bids == [] then INVALID_PRICE else View().bids[0].price
    {
      hide Structure, View, IntrusiveRBTree.Valid, IntrusiveRBTree.Sound, IntrusiveRBTree.Contents;
      BestFacts(Buy);
      var level := bidTree.Minimum();
      price := if level == null then INVALID_PRICE else level.price;
    }

    method BestAsk() returns (price: Price)
      requires Structure()
      ensures price == Best(Ladder(View(), Sell))
      ensures price == if View().asks == [] then INVALID_PRICE else View().asks[0].price
    {
      hide Structure, View, IntrusiveRBTree.Valid, IntrusiveRBTree.Sound, IntrusiveRBTree.Contents;
      BestFacts(Sell);
      var level := askTree.Minimum();
      price := if level == null then INVALID_PRICE else level.price;
    }

    /** The order is matched if it crosses the best opposite price. */
    method MatchCrossing(order: Order, trades: seq<Trade>) returns (crossed: bool, trades': seq<Trade>)
      requires Consistent({order})
      modifies Repr(), order
      ensures Consistent({order}) && bidOrders <= old(bidOrders) && askOrders <= old(askOrders)
      ensures bidTree.members <= old(bidTree.members) && askTree.members <= old(askTree.members)
      ensures crossed == Crosses(old(View()), order.side, order.price)
      ensures var m := Matched(old(View()), order.side, order.price, old(order.quantity));
        && trades' == trades + m.trades && order.quantity == m.left
        && View() == AfterMatching(old(View()), order.side, order.price, old(order.quantity))
      ensures !crossed ==> orderPool.free == old(orderPool.free) && levelPool.free == old(levelPool.free)
      ensures !crossed ==> orderMap.contents == old(orderMap.contents)
    {
      hide Structure, Ledger, View, Sweep;
      trades', crossed := trades, false;
      if order.side.Buy? {
        var best := BestAsk();
        if order.price >= best && best != INVALID_PRICE {
          crossed := true;
          trades' := MatchBuyOrder(order, trades);
        }
      } else {
        var best := BestBid();
        if order.price <= best && best != INVALID_PRICE {
          crossed := true;
          trades' := MatchSellOrder(order, trades);
        }
      }
    }

    /** The invariant between calls. */
    ghost predicate Valid()
      reads Repr()
    {
      Consistent({}) && Proper(Lim(), View())
    }

    lemma {:induction false} ViewClock()
      ensures View().clock == clock
    {
    }

    /** After the order got its slot: matching, then resting. */
    method PlaceOrder(order: Order, trades: seq<Trade>) returns (ok: bool, trades': seq<Trade>)
      requires Consistent({order}) && order.arrival == clock && Proper(Lim(), View())
      requires order.id !in OrderIds(View()) && |OrderIds(View())| < maxOrders
      modifies Repr(), order
      ensures Structure() && Ledger(bidOrders + askOrders, {}) &&
        bidOrders + askOrders <= old(bidOrders + askOrders) + {order}
      ensures fresh(bidTree.members + askTree.members - old(bidTree.members + askTree.members))
      ensures var r := Add(Lim(), old(View()), order.id, order.side, order.price, old(order.quantity));
        View() == r.book && trades' == trades + r.trades && ok == r.ok
      ensures !ok ==> orderPool.free == [order.slot] + old(orderPool.free) && levelPool.free == old(levelPool.free)
      ensures !ok ==> orderMap.contents == old(orderMap.contents)
    {
      hide Structure, Ledger, View, Sweep, Rest, Matched, AfterMatching, OrderIds, Proper, Add;
      ghost var v, qty := View(), order.quantity;
      ghost var m := Matched(v, order.side, order.price, qty);
      ViewClock();
      var crossed;
      crossed, trades' := MatchCrossing(order, trades);
      AddPhases(Lim(), v, order.id, order.side, order.price, qty);
      MatchedProper(Lim(), v, order.side, order.price, qty);
      AllOrNothing(Lim(), v, order.id, order.side, order.price, qty);
      MapIds(order.id, {order});
      ViewClock();
      PartsSeparated();
      assert order in {order};
      if crossed && order.quantity == 0 {
        ReleaseOrder(bidOrders + askOrders, order);
        ok := true;
      } else {
        ok := RestOrder(order, m.trades);
      }
    }

    method FindOrder(id: OrderId, ghost busy: set<Order>) returns (r: Option<Order>)
      requires Ledger(bidOrders + askOrders, busy)
      ensures r == if id in orderMap.contents then Some(orderMap.contents[id]) else None
    {
      r := orderMap.Find(id);
    }

    /** What the specification says about the order in terms of the map and the pool. */
    lemma {:induction false} AddFacts(id: OrderId, side: Side, price: Price, quantity: Quantity)
      requires Valid()
      ensures Proper(Lim(), Add(Lim(), View(), id, side, price, quantity).book)
      ensures Added(Lim(), View(), id, side, price, quantity, Add(Lim(), View(), id, side, price, quantity))
      ensures id in OrderIds(View()) <==> id in orderMap.contents
      ensures |OrderIds(View())| + |orderPool.free| == maxOrders
      ensures var r := Add(Lim(), View(), id, side, price, quantity);
        && (id in OrderIds(View()) || orderPool.free == [] ==> !r.ok)
        && (!r.ok ==> r == Outcome(View(), [], false))
    {
      hide Structure, View, Ledger, Added;
      MapIds(id, {});
      PoolExhausted();
      AddProper(Lim(), View(), id, side, price, quantity);
      AllOrNothing(Lim(), View(), id, side, price, quantity);
      AddLaw(Lim(), View(), id, side, price, quantity);
    }

    /** Adding an order does what the specification says. An order that is not accepted leaves the map and both free
        lists as they were: its own slot goes back to where it came from. */
    method AddOrder(id: OrderId, side: Side, price: Price, quantity: Quantity, trades: seq<Trade>)
        returns (ok: bool, trades': seq<Trade>)
      requires Valid()
      modifies Repr()
      ensures Valid() && fresh(Repr() - old(Repr()))
      ensures var r := Add(Lim(), old(View()), id, side, price, quantity);
        View() == r.book && trades' == trades + r.trades && ok == r.ok
      ensures trades <= trades'
      ensures Added(Lim(), old(View()), id, side, price, quantity, Outcome(View(), trades'[|trades|..], ok))
      ensures !ok ==> orderPool.free == old(orderPool.free) && levelPool.free == old(levelPool.free)
      ensures !ok ==> orderMap.contents == old(orderMap.contents) && View() == old(View()) && trades' == trades
    {
      hide Structure, Ledger, View, Add, Added, Proper, OrderIds, LadderOf, Separated, SideSound, LevelLedger;
      AddFacts(id, side, price, quantity);
      PartsSeparated();
      ViewClock();
      ok, trades' := false, trades;
      var known := FindOrder(id, {});
      if known.Some? {
        return;
      }
      var order := AcquireOrder(bidOrders + askOrders, id, side, price, quantity, clock);
      if order == null {
        return;
      }
      ok, trades' := PlaceOrder(order, trades);
    }

    // ---------- cancelling and modifying ----------

    /** An order leaves the queue it stands in. */
    method Depart(order: Order, level: PriceLevel, ghost i: nat, ghost k: nat)
      requires Structure() && order in OrdersOn(order.side) && order.level == level && level in Tree(order.side).members
      requires i < |Tree(order.side).Contents()| && Tree(order.side).Contents()[i] == level
      requires k < |level.queue| && level.queue[k] == order
      modifies this`bidOrders, this`askOrders, level.orders`next, level.orders`prev, order`level
      modifies level`totalQuantity, level`orderCount, level`head, level`tail, level`queue, level`orders, level`view
      ensures Structure() && bidOrders + askOrders == old(bidOrders + askOrders) - {order}
      ensures level.head == null <==> |old(level.view)| == 1
      ensures level.head == null ==> level.orders == {}
      ensures k < |old(level.view)| && i < |Ladder(old(View()), order.side)|
      ensures View() == WithLadder(old(View()), order.side,
        Ladder(old(View()), order.side)[i := Level(level.price, Omit(old(level.view), k))])
    {
      hide SideSound, LevelLedger, LadderOf, IntrusiveRBTree.Contents, Occupied;
      if order.side.Buy? {
        TakeOutAt(bidTree, bidOrders, level, order, i, k);
        bidOrders := bidOrders - {order};
      } else {
        TakeOutAt(askTree, askOrders, level, order, i, k);
        askOrders := askOrders - {order};
      }
    }

    /** Where the order with an identity stands, and what the specification says about cancelling it. */
    lemma {:induction false} CancelFacts(order: Order) returns (i: nat, k: nat)
      requires Structure() && order in OrdersOn(order.side) && Once(OrderIds(View()))
      requires order in bidOrders + askOrders
      ensures var t, levels := Tree(order.side), Ladder(View(), order.side);
        && order.level != null && order.level in t.members && order.level.orders <= OrdersOn(order.side)
        && i < |levels| == |t.Contents()| && t.Contents()[i] == order.level
        && k < |order.level.queue| == |order.level.view| && order.level.queue[k] == order
        && levels[i] == Level(order.price, order.level.view) && order.price == order.level.price
        && Cancel(View(), order.id) == Outcome(WithLadder(View(), order.side, OmitAt(levels, i, k)), [], true)
    {
      hide SideSound, LadderOf, LevelLedger, IntrusiveRBTree.Contents, OmitAt;
      var levels := Ladder(View(), order.side);
      i, k := Whereabouts(Tree(order.side), OrdersOn(order.side), order);
      var other := Ladder(View(), Opposite(order.side));
      assert Ids(levels)[order.id] + Ids(other)[order.id] == OrderIds(View())[order.id] <= 1;
      WithoutAt(levels, i, k, order.id);
    }

    /** The order leaves its queue, and its level goes if nobody else stands there. */
    method Withdraw(order: Order, level: PriceLevel, ghost i: nat, ghost k: nat)
      requires Structure() && order in OrdersOn(order.side) && order.level == level && level in Tree(order.side).members
      requires i < |Tree(order.side).Contents()| && Tree(order.side).Contents()[i] == level
      requires k < |level.queue| == |level.view| && level.queue[k] == order && level.orders <= OrdersOn(order.side)
      requires i < |Ladder(View(), order.side)| && Ladder(View(), order.side)[i] == Level(level.price, level.view)
      modifies this`bidOrders, this`askOrders, bidOrders, askOrders
      modifies bidTree, askTree, bidTree.members, askTree.members, levelPool, levelPool.next
      ensures Structure() && bidOrders + askOrders == old(bidOrders + askOrders) - {order}
      ensures bidTree.members <= old(bidTree.members) && askTree.members <= old(askTree.members)
      ensures View() == WithLadder(old(View()), order.side, OmitAt(Ladder(old(View()), order.side), i, k))
    {
      hide Structure, View, OmitAt, IntrusiveRBTree.Contents;
      OmitAtSteps(Ladder(View(), order.side), i, k);
      PartsSeparated();
      Depart(order, level, i, k);
      if level.Vacant() {
        RemoveLevel(level, order.side, i);
      }
    }

    lemma {:induction false} OrderSides(order: Order)
      requires Structure() && order in bidOrders + askOrders
      ensures order in OrdersOn(order.side)
    {
      hide LevelLedger, IntrusiveRBTree.Valid, Shelved;
    }

    /** What the map says about an identity. */
    lemma {:induction false} KnownFacts(id: OrderId)
      requires Valid()
      ensures Once(OrderIds(View())) && Proper(Lim(), Cancel(View(), id).book)
      ensures id in OrderIds(View()) <==> id in orderMap.contents
      ensures id !in orderMap.contents ==> Cancel(View(), id) == Outcome(View(), [], false)
      ensures id in orderMap.contents ==>
        var o := orderMap.contents[id];
        o.id == id && o in bidOrders + askOrders && o in OrdersOn(o.side)
    {
      hide Structure, View, FlatHashMap.Valid, ObjectPool.Valid, OrderSlots;
      MapIds(id, {});
      CancelProper(Lim(), View(), id);
      if id in orderMap.contents {
        OrderSides(orderMap.contents[id]);
      }
    }

    lemma {:induction false} SideKnown(order: Order)
      requires Structure() && Once(OrderIds(View())) && order in bidOrders + askOrders && order in OrdersOn(order.side)
      ensures SideOf(View(), order.id) == order.side && order.id in OrderIds(View())
    {
      hide SideSound, LadderOf, LevelLedger, IntrusiveRBTree.Contents;
      var i := HasIdentity(Tree(order.side), OrdersOn(order.side), order);
      IdsAt(Ladder(View(), order.side), order.id);
      var levels, other := Ladder(View(), order.side), Ladder(View(), Opposite(order.side));
      assert Ids(levels)[order.id] + Ids(other)[order.id] == OrderIds(View())[order.id] <= 1;
    }

    method CancelKnown(order: Order)
      requires Structure() && Ledger(bidOrders + askOrders, {}) && Once(OrderIds(View()))
      requires order in bidOrders + askOrders && order in OrdersOn(order.side)
      modifies this`bidOrders, this`askOrders, bidOrders, askOrders
      modifies bidTree, askTree, bidTree.members, askTree.members, levelPool, levelPool.next
      modifies orderMap, orderMap.entries, orderPool, orderPool.next
      ensures Structure() && Ledger(bidOrders + askOrders, {}) && bidOrders + askOrders <= old(bidOrders + askOrders)
      ensures bidTree.members <= old(bidTree.members) && askTree.members <= old(askTree.members)
      ensures Cancel(old(View()), order.id) == Outcome(View(), [], true)
    {
      hide Structure, Ledger, View, OrderIds, Cancel, OmitAt, Once;
      ghost var i, k := CancelFacts(order);
      PartsSeparated();
      Withdraw(order, order.level, i, k);
      Forget(old(bidOrders + askOrders), {}, order);
    }

    method CancelOrder(id: OrderId) returns (ok: bool)
      requires Valid()
      modifies Repr()
      ensures Valid() && Repr() <= old(Repr())
      ensures var r := Cancel(old(View()), id); View() == r.book && ok == r.ok
      ensures Cancelled(old(View()), id, Outcome(View(), [], ok))
    {
      hide Structure, Ledger, View, Proper, OrderIds, Cancel, Cancelled;
      CancelLaw(View(), id);
      KnownFacts(id);
      PartsSeparated();
      var found := FindOrder(id, {});
      if found.None? {
        return false;
      }
      CancelKnown(found.value);
      ok := true;
    }

    lemma {:induction false} ModifyFacts(id: OrderId, price: Price, quantity: Quantity)
      requires Valid()
      ensures Modified(Lim(), View(), id, price, quantity, Modify(Lim(), View(), id, price, quantity))
    {
      ModifyLaw(Lim(), View(), id, price, quantity);
    }

    /** A known order is cancelled, and one of its side is added. */
    method Replace(order: Order, price: Price, quantity: Quantity, trades: seq<Trade>)
        returns (ok: bool, trades': seq<Trade>)
      requires Valid() && order.id in orderMap.contents && orderMap.contents[order.id] == order
      modifies Repr()
      ensures Valid() && fresh(Repr() - old(Repr()))
      ensures var r := Modify(Lim(), old(View()), order.id, price, quantity);
        View() == r.book && trades' == trades + r.trades && ok == r.ok
    {
      hide Structure, Ledger, View, Proper, OrderIds, Cancel, Add, SideOf, Separated, SideSound, LevelLedger, Once;
      hide Added, Cancelled;
      var id, side := order.id, order.side;
      KnownFacts(id);
      SideKnown(order);
      var cancelled := CancelOrder(id);
      ok, trades' := AddOrder(id, side, price, quantity, trades);
    }

    /** Modifying is cancelling and adding, on the same side. An unknown identity changes nothing. */
    method ModifyOrder(id: OrderId, price: Price, quantity: Quantity, trades: seq<Trade>)
        returns (ok: bool, trades': seq<Trade>)
      requires Valid()
      modifies Repr()
      ensures Valid() && fresh(Repr() - old(Repr()))
      ensures var r := Modify(Lim(), old(View()), id, price, quantity);
        View() == r.book && trades' == trades + r.trades && ok == r.ok
      ensures trades <= trades'
      ensures Modified(Lim(), old(View()), id, price, quantity, Outcome(View(), trades'[|trades|..], ok))
    {
      hide Structure, Ledger, View, Proper, OrderIds, Cancel, Add, SideOf, Separated, SideSound, LevelLedger, Once;
      hide Modified;
      KnownFacts(id);
      ModifyFacts(id, price, quantity);
      ok, trades' := false, trades;
      var known := FindOrder(id, {});
      if known.None? {
        return;
      }
      ok, trades' := Replace(known.value, price, quantity, trades);
    }

    // ---------- the invariant, spelled out ----------

    /** Every level in the trees has orders, and its counters are those of its queue. */
    lemma {:induction false} LevelsCounted(level: PriceLevel)
      requires Valid() && level in bidTree.members + askTree.members
      ensures level.queue != [] && |level.view| == |level.queue|
      ensures level.totalQuantity == Queued(level.view) % TWO_32 && level.orderCount == |level.queue|
    {
      hide Ledger, LevelLedger, IntrusiveRBTree.Valid, LadderOf;
      var t := if level in bidTree.members then bidTree else askTree;
      var orders := if level in bidTree.members then bidOrders else askOrders;
      LevelTotal(t, orders, level);
      TreeFacts(t);
      var i := ElementIndex(t.Contents(), level);
      NonEmptyAt(LadderOf(t), i);
      Head(t.side, t.members, orders, level);
    }

    /** An order stands in the queue of a level of its side and price exactly if the map finds it under its identity. */
    lemma {:induction false} QueuesMatchMap(order: Order)
      requires Valid()
      ensures (order.id in orderMap.contents && orderMap.contents[order.id] == order) <==>
              exists l :: l in bidTree.members + askTree.members && order in l.orders
      ensures order.id in orderMap.contents && orderMap.contents[order.id] == order ==>
        && order.level != null && order.level in Tree(order.side).members && order in order.level.orders
        && order.price == order.level.price
    {
      hide LevelLedger, IntrusiveRBTree.Valid, LadderOf, FlatHashMap.Valid, ObjectPool.Valid, Proper;
      if order in bidOrders + askOrders {
        OrderSides(order);
        var i, k := Whereabouts(Tree(order.side), OrdersOn(order.side), order);
      }
    }

    /** Slots in use and free slots together are the pools. */
    lemma {:induction false} PoolsCounted()
      requires Valid()
      ensures |OrderIds(View())| + orderPool.available == maxOrders &&
        LevelCount(View()) + levelPool.available == maxLevels
    {
      hide LadderOf, SideSound, FlatHashMap.Valid;
      PoolExhausted();
      Counts();
    }

    // ---------- queries ----------

    method BestBidQty() returns (q: Quantity)
      requires Valid()
      ensures q == if View().bids == [] then 0 else Queued(View().bids[0].queue) % TWO_32
    {
      hide SideSound, LevelLedger, Ledger, Proper, View, IntrusiveRBTree.Valid, IntrusiveRBTree.Sound;
      hide IntrusiveRBTree.Contents, Queued;
      BestFacts(Buy);
      var level := bidTree.Minimum();
      if level == null {
        return 0;
      }
      LevelTotal(bidTree, bidOrders, level);
      q := level.totalQuantity;
    }

    method BestAskQty() returns (q: Quantity)
      requires Valid()
      ensures q == if View().asks == [] then 0 else Queued(View().asks[0].queue) % TWO_32
    {
      hide SideSound, LevelLedger, Ledger, Proper, View, IntrusiveRBTree.Valid, IntrusiveRBTree.Sound;
      hide IntrusiveRBTree.Contents, Queued;
      BestFacts(Sell);
      var level := askTree.Minimum();
      if level == null {
        return 0;
      }
      LevelTotal(askTree, askOrders, level);
      q := level.totalQuantity;
    }

    /** The first n ask levels, cheapest first, or all if there are fewer. */
    method GetAsks(n: nat) returns (out: seq<Quote>)
      requires Valid()
      ensures out == Prefix(Quotes(View().asks), n) && Shows(out, View().asks, n)
      ensures forall i, j :: 0 <= i < j < |out| ==> out[i].price < out[j].price
    {
      hide SideSound, LevelLedger, Ledger, LadderOf, Quotes;
      out := ShowFirst(askTree, askOrders, n);
      QuotesAt(View().asks);
      PrefixShows(View().asks, n, n);
      SortedIndexed(Sell, View().asks);
    }

    /** As written: the walk goes to predecessors, so at most the best level is shown. That is what was asked for
        exactly if one level at most was asked for or is there. */
    method GetBids(n: nat) returns (out: seq<Quote>)
      requires Valid()
      ensures out == Prefix(Quotes(View().bids), Min(n, 1))
      ensures ShowsBest(out, View().bids, n)
      ensures out == Prefix(Quotes(View().bids), n) <==> n <= 1 || |View().bids| <= 1
    {
      hide SideSound, LevelLedger, Ledger, LadderOf, Quotes, Proper, ShowsBest;
      BestOnly(View().bids, n);
      BestShown(View().bids, n);
      out := ShowBest(bidTree, bidOrders, n);
    }

    /** Repair, not in the source: the walk goes to successors, as for the asks. */
    method GetBidsBySuccessor(n: nat) returns (out: seq<Quote>)
      requires Valid()
      ensures out == Prefix(Quotes(View().bids), n) && Shows(out, View().bids, n)
      ensures forall i, j :: 0 <= i < j < |out| ==> out[i].price > out[j].price
    {
      hide SideSound, LevelLedger, Ledger, LadderOf, Quotes;
      out := ShowFirst(bidTree, bidOrders, n);
      QuotesAt(View().bids);
      PrefixShows(View().bids, n, n);
      SortedIndexed(Buy, View().bids);
    }

    /** The sizes that the book reports are those of the book it stands for. */
    method Sizes() returns (orders: nat, bidLevels: nat, askLevels: nat)
      requires Valid()
      ensures orders == |OrderIds(View())| && bidLevels == |View().bids| && askLevels == |View().asks|
    {
      hide LevelLedger, SideSound, IntrusiveRBTree.Contents, LadderOf;
      PoolExhausted();
      SideFacts(bidTree, bidOrders);
      SideFacts(askTree, askOrders);
      orders, bidLevels, askLevels := orderMap.size, bidTree.size, askTree.size;
    }
  }

  lemma {:induction false} NonEmptyAt(levels: seq<Level>, i: nat)
    requires NonEmpty(levels) && i < |levels|
    ensures levels[i].queue != []
  {
    if i > 0 {
      NonEmptyAt(levels[1..], i - 1);
    }
  }

  lemma {:induction false} FollowingNothing<T>(a: seq<Trade>, s: Swept<T>)
    requires s.trades == []
    ensures Following(a, s) == Swept(a, s.left, s.rest)
  {
  }
}