/** One side of the book: a tree of levels with their queues of orders, and the ladder it stands for. */
module Sides {
  import opened Sequences
  import opened Types
  import opened Sweeps
  import opened Ladders
  import opened LadderSteps
  import opened Levels
  import opened LevelOrder
  import opened MarketDepth
  import opened IntrusiveTree

  // ---------- the ladder of a sequence of levels ----------

  type Views = map<PriceLevel, seq<Resting>>

  ghost function Rung(l: PriceLevel, m: Views): Level {
    Level(l.price, if l in m then m[l] else [])
  }

  ghost function Rungs(s: seq<PriceLevel>, m: Views): seq<Level> {
    if s == [] then [] else [Rung(s[0], m)] + Rungs(s[1..], m)
  }

  lemma {:induction false} RungsAt(s: seq<PriceLevel>, m: Views)
    ensures |Rungs(s, m)| == |s| && forall i :: 0 <= i < |s| ==> Rungs(s, m)[i] == Rung(s[i], m)
  {
    if s != [] {
      RungsAt(s[1..], m);
    }
  }

  lemma {:induction false} RungsSorted(side: Side, s: seq<PriceLevel>, m: Views)
    requires Ordered(side, s)
    ensures Sorted(side, Rungs(s, m))
  {
    if |s| >= 2 {
      RungsSorted(side, s[1..], m);
      assert Rungs(s, m)[1..] == Rungs(s[1..], m);
    }
  }

  // ---------- the side of a tree ----------

  ghost function HeapViews(levels: set<PriceLevel>): Views
    reads levels`view
  {
    map l | l in levels :: l.view
  }

  /** The ladder that the tree and its queues stand for. */
  ghost function LadderOf(t: IntrusiveRBTree): seq<Level>
    reads t, t.members`view
  {
    Rungs(t.Contents(), HeapViews(t.members))
  }

  /** Every level is sound, and its orders are among these. */
  ghost predicate Shelved(side: Side, levels: set<PriceLevel>, orders: set<Order>)
    reads levels`totalQuantity, levels`orderCount, levels`head, levels`tail, levels`queue, levels`orders, levels`view
    reads orders`prev, orders`next, orders`quantity, orders`level
  {
    forall l :: l in levels ==> l.side == side && l.orders <= orders && l.Sound()
  }

  /** Each of these orders is in the queue of one of the levels. */
  ghost predicate Housed(side: Side, levels: set<PriceLevel>, orders: set<Order>)
    reads levels`orders, orders`level
  {
    forall o :: o in orders ==> o.side == side && o.level != null && o.level in levels && o in o.level.orders
  }

  ghost predicate Stocked(side: Side, levels: set<PriceLevel>, orders: set<Order>)
    reads levels`totalQuantity, levels`orderCount, levels`head, levels`tail, levels`queue, levels`orders, levels`view
    reads orders`prev, orders`next, orders`quantity, orders`level
  {
    Shelved(side, levels, orders) && Housed(side, levels, orders)
  }

  /** A whole side: a red-black tree of sound levels that holds exactly these orders. */
  ghost predicate SideSound(t: IntrusiveRBTree, orders: set<Order>)
    reads t, t.members, orders
  {
    t.Valid() && Stocked(t.side, t.members, orders)
  }

  /** Different levels have different orders. */
  lemma {:induction false} LevelsApart(side: Side, levels: set<PriceLevel>, orders: set<Order>, l: PriceLevel)
    requires Shelved(side, levels, orders) && l in levels
    ensures forall k :: k in levels && k != l ==> k.orders !! l.orders
  {
    assert l.Owned();
    forall k | k in levels && k != l ensures k.orders !! l.orders {
      assert k.Owned();
    }
  }

  lemma {:induction false} RungChanged(side: Side, s: seq<PriceLevel>, m: Views, m': Views, i: nat)
    requires Ordered(side, s) && i < |s| && s[i] in m'
    requires forall l :: l != s[i] && l in m ==> l in m' && m'[l] == m[l]
    requires Elements(s) <= m.Keys
    ensures |Rungs(s, m)| == |s| && Rungs(s, m') == Rungs(s, m)[i := Level(s[i].price, m'[s[i]])]
  {
    RungsAt(s, m);
    RungsAt(s, m');
    forall j | 0 <= j < |s| && j != i ensures Rung(s[j], m') == Rung(s[j], m) {
      ElementsAt(s, j);
      if s[j] == s[i] {
        OrderedIndex(side, s, i, j);
      }
    }
  }

  /** An order leaves its queue. */
  method TakeOut(ghost side: Side, ghost levels: set<PriceLevel>, ghost orders: set<Order>, level: PriceLevel,
      order: Order, ghost k: nat)
    requires Stocked(side, levels, orders) && level in levels && k < |level.queue| && level.queue[k] == order
    modifies level`totalQuantity, level`orderCount, level`head, level`tail, level`queue, level`orders, level`view
    modifies level.orders`next, level.orders`prev, order`level
    ensures Stocked(side, levels, orders - {order})
    ensures level.queue == Omit(old(level.queue), k) && k < |old(level.view)| && level.view == Omit(old(level.view), k)
    ensures level.orders == old(level.orders) - {order}
  {
    level.At(k);
    LevelsApart(side, levels, orders, level);
    level.RemoveOrder(order, k);
    forall l | l in levels && l != level ensures l.orders <= orders - {order} && l.Sound() {
      assert old(l.Sound());
    }
    forall o | o in orders - {order} ensures o.side == side && o.level != null && o.level in levels &&
      o in o.level.orders {
      assert o.level == old(o.level);
      if o.level != level {
        assert o.level.orders == old(o.level.orders);
      }
    }
  }

  /** An order joins the queue of a level. */
  method PutIn(ghost side: Side, ghost levels: set<PriceLevel>, ghost orders: set<Order>, level: PriceLevel,
      order: Order)
    requires Stocked(side, levels, orders) && level in levels && order !in orders
    requires order.side == side && order.price == level.price
    modifies level`totalQuantity, level`orderCount, level`head, level`tail, level`queue, level`orders, level`view
    modifies order`next, order`prev, order`level, level.orders`next
    ensures Stocked(side, levels, orders + {order})
    ensures level.view == old(level.view) + [Resting(order.id, order.quantity, order.arrival)]
  {
    LevelsApart(side, levels, orders, level);
    level.AddOrder(order);
    forall l | l in levels && l != level ensures l.orders <= orders + {order} && l.Sound() {
      assert old(l.Sound());
    }
    forall o | o in orders + {order} ensures o.side == side && o.level != null && o.level in levels &&
      o in o.level.orders {
      if o != order {
        assert o.level == old(o.level);
        if o.level != level {
          assert o.level.orders == old(o.level.orders);
        }
      }
    }
  }

  /** The first order of a level is filled in part or completely, but stays for now. */
  method FillFirst(ghost side: Side, ghost levels: set<PriceLevel>, ghost orders: set<Order>, level: PriceLevel,
      order: Order, quantity: Quantity)
    requires Stocked(side, levels, orders) && level in levels && level.head == order && quantity <= order.quantity
    modifies level`totalQuantity, level`view, order`quantity
    ensures Stocked(side, levels, orders) && order.quantity == old(order.quantity) - quantity
    ensures old(level.view) != [] && level.view == old(level.view)[0 := old(level.view)[0].(qty := order.quantity)]
  {
    level.At(0);
    LevelsApart(side, levels, orders, level);
    level.Reduce(order, 0, quantity);
    forall l | l in levels && l != level ensures l.orders <= orders && l.Sound() {
      assert old(l.Sound());
    }
  }

  lemma {:induction false} LevelOpened(side: Side, levels: set<PriceLevel>, orders: set<Order>, l: PriceLevel)
    requires Stocked(side, levels, orders) && l.side == side && l.Sound() && l.orders == {}
    ensures Stocked(side, levels + {l}, orders)
  {
  }

  lemma {:induction false} LevelClosed(side: Side, levels: set<PriceLevel>, orders: set<Order>, l: PriceLevel)
    requires Stocked(side, levels, orders) && l.orders == {}
    ensures Stocked(side, levels - {l}, orders)
  {
  }

  lemma {:induction false} TreeFacts(t: IntrusiveRBTree)
    requires t.Valid()
    ensures Ordered(t.side, t.Contents()) && t.members == Elements(t.Contents())
    ensures |LadderOf(t)| == |t.Contents()| && Sorted(t.side, LadderOf(t))
    ensures forall i :: 0 <= i < |t.Contents()| ==>
      t.Contents()[i] in t.members && LadderOf(t)[i] == Level(t.Contents()[i].price, t.Contents()[i].view)
  {
    RungsAt(t.Contents(), HeapViews(t.members));
    RungsSorted(t.side, t.Contents(), HeapViews(t.members));
    forall i | 0 <= i < |t.Contents()| ensures t.Contents()[i] in t.members {
      ElementsAt(t.Contents(), i);
    }
  }

  /** The ladder after the queue of one level has changed. */
  lemma {:induction false} LadderChanged(t: IntrusiveRBTree, m: Views, i: nat)
    requires t.Valid() && i < |t.Contents()| && m.Keys == t.members
    requires forall l :: l in t.members && l != t.Contents()[i] ==> l.view == m[l]
    ensures i < |Rungs(t.Contents(), m)|
    ensures LadderOf(t) == Rungs(t.Contents(), m)[i := Level(t.Contents()[i].price, t.Contents()[i].view)]
  {
    ElementsAt(t.Contents(), i);
    RungChanged(t.side, t.Contents(), m, HeapViews(t.members), i);
  }

  /** What the head of a level tells. */
  lemma {:induction false} Head(side: Side, levels: set<PriceLevel>, orders: set<Order>, l: PriceLevel)
    requires Stocked(side, levels, orders) && l in levels
    ensures l.side == side && l.orders <= orders && |l.view| == |l.queue|
    ensures l.head == null <==> l.queue == []
    ensures l.queue == [] ==> l.orders == {}
    ensures l.queue != [] ==>
      l.head == l.queue[0] && l.head in l.orders && l.head.side == side && l.head.price == l.price
    ensures l.queue != [] ==> l.view[0] == Resting(l.head.id, l.head.quantity, l.head.arrival)
    ensures l.queue != [] ==> l.head.next == if |l.queue| > 1 then l.queue[1] else null
  {
    assert l.Sound();
    if l.queue != [] {
      l.At(0);
      assert l.Owned();
    } else {
      assert l.view == [];
    }
  }

  // ---------- levels come and go ----------

  lemma {:induction false} RungsOmit(side: Side, s: seq<PriceLevel>, i: nat, m: Views, m': Views)
    requires Ordered(side, s) && i < |s| && Elements(s) <= m.Keys
    requires forall l :: l in m && l != s[i] ==> l in m' && m'[l] == m[l]
    ensures i < |Rungs(s, m)| && Rungs(Omit(s, i), m') == Omit(Rungs(s, m), i)
  {
    var r := Omit(s, i);
    RungsAt(s, m);
    RungsAt(r, m');
    forall j | 0 <= j < |r| ensures Rung(r[j], m') == Omit(Rungs(s, m), i)[j] {
      var k := if j < i then j else j + 1;
      ElementsAt(s, k);
      if s[k] == s[i] {
        OrderedIndex(side, s, i, k);
      }
    }
  }

  lemma {:induction false} RungsInsert(s: seq<PriceLevel>, k: nat, l: PriceLevel, m: Views, m': Views)
    requires k <= |s| && Elements(s) <= m.Keys && l !in m && l in m' && m'[l] == []
    requires forall n :: n in m ==> n in m' && m'[n] == m[n]
    ensures var r := Rungs(s, m);
      k <= |r| && Rungs(s[..k] + [l] + s[k..], m') == r[..k] + [Level(l.price, [])] + r[k..]
  {
    hide Rungs, Elements;
    var r := s[..k] + [l] + s[k..];
    RungsAt(s, m);
    RungsAt(r, m');
    forall j | 0 <= j < |r| && j != k ensures Rung(r[j], m') == Rungs(s, m)[if j < k then j else j - 1] {
      ElementsAt(s, if j < k then j else j - 1);
    }
  }

  /** A level leaves its tree. */
  method CloseRung(t: IntrusiveRBTree, level: PriceLevel, ghost i: nat)
    requires t.Valid() && i < |t.Contents()| && t.Contents()[i] == level
    modifies t, t.members`hook
    ensures t.Valid() && t.members == old(t.members) - {level} && |t.Contents()| == |old(t.Contents())| - 1
    ensures i < |old(LadderOf(t))| && LadderOf(t) == Omit(old(LadderOf(t)), i)
  {
    ghost var s, m := t.Contents(), HeapViews(t.members);
    t.RemoveRebalanced(level, i);
    RungsOmit(t.side, s, i, m, HeapViews(t.members));
  }

  /** A new level without orders enters the tree; its price is not there yet. */
  method OpenRung(t: IntrusiveRBTree, level: PriceLevel) returns (ghost k: nat)
    requires t.Valid() && level !in t.members && level.view == [] && Absent(t.members, level.price)
    modifies t, t.members`hook, level`hook
    ensures t.Valid() && t.members == old(t.members) + {level} && InsertedAt(t.Contents(), old(t.Contents()), k, level)
    ensures k <= |old(LadderOf(t))|
    ensures LadderOf(t) == old(LadderOf(t))[..k] + [Level(level.price, [])] + old(LadderOf(t))[k..]
  {
    ghost var s, m := t.Contents(), HeapViews(t.members);
    var inserted;
    inserted, k := t.Insert(level);
    RungsInsert(s, k, level, m, HeapViews(t.members));
  }

  /** A level without orders leaves its tree. */
  method CloseLevel(t: IntrusiveRBTree, ghost orders: set<Order>, level: PriceLevel, ghost i: nat)
    requires SideSound(t, orders)
    requires i < |t.Contents()| && t.Contents()[i] == level && level.orders == {}
    modifies t, t.members`hook
    ensures SideSound(t, orders)
    ensures t.members == old(t.members) - {level} && |t.Contents()| == |old(t.Contents())| - 1
    ensures i < |old(LadderOf(t))| && LadderOf(t) == Omit(old(LadderOf(t)), i)
  {
    hide IntrusiveRBTree.Valid, Stocked, LadderOf;
    LevelClosed(t.side, t.members, orders, level);
    CloseRung(t, level, i);
  }

  /** A new level without orders enters the tree; its price is not there yet. */
  method OpenLevel(t: IntrusiveRBTree, ghost orders: set<Order>, level: PriceLevel) returns (ghost k: nat)
    requires SideSound(t, orders)
    requires level !in t.members && level.side == t.side && level.Sound() && level.orders == {} && level.view == []
    requires Absent(t.members, level.price)
    modifies t, t.members`hook, level`hook
    ensures SideSound(t, orders)
    ensures t.members == old(t.members) + {level} && InsertedAt(t.Contents(), old(t.Contents()), k, level)
    ensures k <= |old(LadderOf(t))|
    ensures LadderOf(t) == old(LadderOf(t))[..k] + [Level(level.price, [])] + old(LadderOf(t))[k..]
  {
    hide IntrusiveRBTree.Valid, Stocked, LadderOf, PriceLevel.Sound;
    LevelOpened(t.side, t.members, orders, level);
    k := OpenRung(t, level);
  }

  lemma {:induction false} ElementIndex(s: seq<PriceLevel>, l: PriceLevel) returns (i: nat)
    requires l in Elements(s)
    ensures i < |s| && s[i] == l
  {
    if s[0] == l {
      i := 0;
    } else {
      i := ElementIndex(s[1..], l);
      i := i + 1;
    }
  }

  lemma {:induction false} AbsentPrice(t: IntrusiveRBTree, price: Price)
    requires t.Valid() && Absent(t.members, price)
    ensures !HasPrice(LadderOf(t), price)
  {
    TreeFacts(t);
    HasPriceAt(LadderOf(t), price);
  }

  /** The level of a price, if there is one: an order o that joins it is enqueued. */
  method FindLevelOf(t: IntrusiveRBTree, ghost orders: set<Order>, price: Price, ghost o: Resting)
      returns (level: PriceLevel?, ghost i: nat)
    requires SideSound(t, orders)
    ensures level == null ==> Absent(t.members, price) && !HasPrice(LadderOf(t), price)
    ensures level != null ==>
      i < |t.Contents()| == |LadderOf(t)| && t.Contents()[i] == level && level in t.members && level.price == price
    ensures level != null ==> HasPrice(LadderOf(t), price)
    ensures level != null ==> Enqueue(t.side, LadderOf(t), price, o) == LadderOf(t)[i := Level(price, level.view + [o])]
  {
    hide Stocked, Enqueue, HasPrice, LadderOf;
    ghost var rounds;
    level, rounds := t.FindNode(price);
    i := 0;
    if level == null {
      AbsentPrice(t, price);
    } else {
      TreeFacts(t);
      i := ElementIndex(t.Contents(), level);
      EnqueueAt(t.side, LadderOf(t), i, o);
    }
  }

  /** A level is opened for an order o. */
  method OpenLevelFor(t: IntrusiveRBTree, ghost orders: set<Order>, level: PriceLevel, ghost o: Resting)
      returns (ghost k: nat)
    requires SideSound(t, orders)
    requires level !in t.members && level.side == t.side && level.Sound() && level.orders == {} && level.view == []
    requires Absent(t.members, level.price)
    modifies t, t.members`hook, level`hook
    ensures SideSound(t, orders)
    ensures t.members == old(t.members) + {level} && |t.Contents()| == |old(t.Contents())| + 1
    ensures k < |t.Contents()| == |LadderOf(t)| && t.Contents()[k] == level
    ensures Enqueue(t.side, old(LadderOf(t)), level.price, o) == LadderOf(t)[k := Level(level.price, [o])]
  {
    hide IntrusiveRBTree.Valid, Stocked, LadderOf, Enqueue, PriceLevel.Sound, Sorted, Absent;
    k := OpenLevel(t, orders, level);
    TreeFacts(t);
    EnqueueOpened(t.side, old(LadderOf(t)), k, level.price, o);
  }

  lemma {:induction false} OrdersWithin(t: IntrusiveRBTree, orders: set<Order>, l: PriceLevel)
    requires SideSound(t, orders) && l in t.members
    ensures l.orders <= orders
  {
  }

  /** An order joins the level at place i. */
  method PutInAt(t: IntrusiveRBTree, ghost orders: set<Order>, level: PriceLevel, order: Order, ghost i: nat)
    requires SideSound(t, orders) && i < |t.Contents()| && t.Contents()[i] == level && level in t.members
    requires order !in orders && order.side == t.side && order.price == level.price
    modifies level`totalQuantity, level`orderCount, level`head, level`tail, level`queue, level`orders, level`view
    modifies order`next, order`prev, order`level, level.orders`next
    ensures SideSound(t, orders + {order}) && old(level.orders) <= orders && i < |old(LadderOf(t))|
    ensures var queue := old(level.view) + [Resting(order.id, order.quantity, order.arrival)];
      LadderOf(t) == old(LadderOf(t))[i := Level(level.price, queue)]
  {
    hide IntrusiveRBTree.Valid, IntrusiveRBTree.Contents, Stocked;
    ghost var m := HeapViews(t.members);
    Head(t.side, t.members, orders, level);
    PutIn(t.side, t.members, orders, level, order);
    LadderChanged(t, m, i);
  }

  /** An order leaves place k of the level at place i. */
  method TakeOutAt(t: IntrusiveRBTree, ghost orders: set<Order>, level: PriceLevel, order: Order, ghost i: nat,
      ghost k: nat)
    requires SideSound(t, orders) && i < |t.Contents()| && t.Contents()[i] == level && level in t.members
    requires k < |level.queue| && level.queue[k] == order
    modifies level`totalQuantity, level`orderCount, level`head, level`tail, level`queue, level`orders, level`view
    modifies level.orders`next, level.orders`prev, order`level
    ensures SideSound(t, orders - {order}) && old(level.orders) <= orders && i < |old(LadderOf(t))| &&
      k < |old(level.view)|
    ensures LadderOf(t) == old(LadderOf(t))[i := Level(level.price, Omit(old(level.view), k))]
    ensures level.head == null <==> Omit(old(level.view), k) == []
    ensures level.head == null ==> level.orders == {}
  {
    hide IntrusiveRBTree.Valid, IntrusiveRBTree.Contents, Stocked;
    ghost var m := HeapViews(t.members);
    Head(t.side, t.members, orders, level);
    TakeOut(t.side, t.members, orders, level, order, k);
    Head(t.side, t.members, orders - {order}, level);
    LadderChanged(t, m, i);
  }

  // ---------- identities ----------

  /** The identities on the ladder are those of the orders. */
  lemma {:induction false} SideIds(t: IntrusiveRBTree, orders: set<Order>, id: OrderId)
    requires SideSound(t, orders)
    ensures id in Ids(LadderOf(t)) <==> exists o :: o in orders && o.id == id
  {
    var levels := LadderOf(t);
    TreeFacts(t);
    IdsAt(levels, id);
    if id in Ids(levels) {
      var i :| 0 <= i < |levels| && id in QueueIds(levels[i].queue);
      var o := HasOrder(t, orders, i, id);
    }
    if o :| o in orders && o.id == id {
      var i := HasIdentity(t, orders, o);
    }
  }

  lemma {:induction false} HasOrder(t: IntrusiveRBTree, orders: set<Order>, i: nat, id: OrderId) returns (o: Order)
    requires SideSound(t, orders) && i < |t.Contents()| && t.Contents()[i] in t.members &&
      id in QueueIds(t.Contents()[i].view)
    ensures o in orders && o.id == id
  {
    hide IntrusiveRBTree.Valid, IntrusiveRBTree.Contents;
    var l := t.Contents()[i];
    assert l.Sound();
    QueueIdsAt(l.view, id);
    var k :| 0 <= k < |l.view| && l.view[k].id == id;
    if l.queue != [] {
      l.At(0);
    }
    l.At(k);
    o := l.queue[k];
  }

  /** Where an order stands. */
  lemma {:induction false} Whereabouts(t: IntrusiveRBTree, orders: set<Order>, o: Order) returns (i: nat, k: nat)
    requires SideSound(t, orders) && o in orders
    ensures o.level != null && o.side == t.side && o.level in t.members && o.level.orders <= orders
    ensures i < |LadderOf(t)| == |t.Contents()| && t.Contents()[i] == o.level && o.price == o.level.price
    ensures k < |o.level.queue| == |o.level.view| && o.level.queue[k] == o
    ensures LadderOf(t)[i] == Level(o.price, o.level.view) && o.level.view[k].id == o.id
  {
    hide IntrusiveRBTree.Valid, IntrusiveRBTree.Contents, LadderOf;
    TreeFacts(t);
    var l := o.level;
    i := ElementIndex(t.Contents(), l);
    assert l.Sound();
    k := MemberIndex(l.queue, o);
    l.At(k);
  }

  lemma {:induction false} HasIdentity(t: IntrusiveRBTree, orders: set<Order>, o: Order) returns (i: nat)
    requires SideSound(t, orders) && o in orders
    ensures i < |LadderOf(t)| && o.id in QueueIds(LadderOf(t)[i].queue)
  {
    var k;
    i, k := Whereabouts(t, orders, o);
    QueueIdsAt(o.level.view, o.id);
  }

  // ---------- what a level shows ----------

  lemma {:induction false} EmptySide(t: IntrusiveRBTree)
    requires t.Valid() && t.Contents() == []
    ensures SideSound(t, {}) && t.members == {} && LadderOf(t) == []
  {
  }

  lemma {:induction false} LevelTotal(t: IntrusiveRBTree, orders: set<Order>, l: PriceLevel)
    requires SideSound(t, orders) && l in t.members
    ensures l.totalQuantity == Total(l.view) && l.orderCount == |l.queue|
  {
    hide IntrusiveRBTree.Valid;
    assert l.Sound();
  }

  method Show(t: IntrusiveRBTree, ghost orders: set<Order>, level: PriceLevel, ghost i: nat) returns (q: Quote)
    requires SideSound(t, orders) && i < |t.Contents()| && t.Contents()[i] == level
    ensures |t.Contents()| == |Quotes(LadderOf(t))| && q == Quotes(LadderOf(t))[i]
  {
    hide IntrusiveRBTree.Contents, IntrusiveRBTree.Valid, LadderOf, Quotes;
    TreeFacts(t);
    QuotesAt(LadderOf(t));
    Head(t.side, t.members, orders, level);
    q := Quote(level.price, level.totalQuantity, level.orderCount);
  }

  lemma {:induction false} SideFacts(t: IntrusiveRBTree, orders: set<Order>)
    requires SideSound(t, orders)
    ensures t.Sound() && |Quotes(LadderOf(t))| == |LadderOf(t)| == |t.Contents()|
  {
    TreeFacts(t);
    QuotesAt(LadderOf(t));
  }

  /** The walk along the successors from the best level: it shows the first n levels, or all if there are fewer. */
  method ShowFirst(t: IntrusiveRBTree, ghost orders: set<Order>, n: nat) returns (out: seq<Quote>)
    requires SideSound(t, orders)
    ensures out == Prefix(Quotes(LadderOf(t)), n)
  {
    hide SideSound, LadderOf, Quotes, IntrusiveRBTree.Sound, IntrusiveRBTree.Contents;
    SideFacts(t, orders);
    ghost var s, quotes := t.Contents(), Quotes(LadderOf(t));
    out := [];
    var level := t.Minimum();
    while level != null && |out| < n
      invariant SideSound(t, orders) && t.Contents() == s && Quotes(LadderOf(t)) == quotes
      invariant |out| <= |s| && |out| <= n && out == quotes[..|out|]
      invariant level == if |out| < |s| then s[|out|] else null
      decreases n - |out|
    {
      SideFacts(t, orders);
      var q := Show(t, orders, level, |out|);
      level := t.Successor(level, |out|);
      out := out + [q];
    }
  }

  /** The walk along the predecessors, as get_bids has it: nothing precedes the best level. */
  method ShowBest(t: IntrusiveRBTree, ghost orders: set<Order>, n: nat) returns (out: seq<Quote>)
    requires SideSound(t, orders)
    ensures out == Prefix(Quotes(LadderOf(t)), Min(n, 1))
  {
    hide SideSound, LadderOf, Quotes, IntrusiveRBTree.Sound, IntrusiveRBTree.Contents;
    SideFacts(t, orders);
    ghost var s, quotes := t.Contents(), Quotes(LadderOf(t));
    out := [];
    var level := t.Minimum();
    while level != null && |out| < n
      invariant SideSound(t, orders) && t.Contents() == s && Quotes(LadderOf(t)) == quotes
      invariant |out| <= Min(1, |s|) && |out| <= n && out == quotes[..|out|]
      invariant level == if |out| == 0 && s != [] then s[0] else null
      decreases n - |out|
    {
      SideFacts(t, orders);
      var q := Show(t, orders, level, |out|);
      level := t.Predecessor(level, |out|);
      out := out + [q];
    }
  }
}
