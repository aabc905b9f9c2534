/** Orders and price levels: a level is a node of a tree and the owner of a doubly linked queue of orders.
    Objects are taken from a pool by constructing them anew in a slot. For the proofs, the fields of the orders of a
    queue are taken as one map, so that two states of the heap are compared without reading it. */
module Levels {
  import opened Sequences
  import opened Types
  import opened TreeShape
  import opened Sweeps
  import opened Ladders

  datatype TreeNode = TreeNode(parent: PriceLevel?, left: PriceLevel?, right: PriceLevel?, color: Color)

  class Order {
    const slot: int
    const id: OrderId
    const side: Side
    const price: Price
    ghost const arrival: nat
    var quantity: Quantity
    var next: Order?
    var prev: Order?
    var level: PriceLevel?

    constructor (slot: int, id: OrderId, side: Side, price: Price, quantity: Quantity, ghost arrival: nat)
      ensures this.slot == slot && this.id == id && this.side == side && this.price == price && this.arrival == arrival
      ensures this.quantity == quantity && next == null && prev == null && level == null
    {
      this.slot, this.id, this.side, this.price, this.arrival := slot, id, side, price, arrival;
      this.quantity, next, prev, level := quantity, null, null, null;
    }
  }

  class PriceLevel {
    const slot: int
    const price: Price
    const side: Side
    var hook: TreeNode
    var totalQuantity: Quantity
    var orderCount: nat
    var head: Order?
    var tail: Order?
    /** The orders from head to tail, the set of them, and what rests with them. */
    ghost var queue: seq<Order>
    ghost var orders: set<Order>
    ghost var view: seq<Resting>

    constructor (slot: int, price: Price, side: Side)
      ensures this.slot == slot && this.price == price && this.side == side
      ensures Sound() && queue == [] && view == [] && orders == {} && hook == TreeNode(null, null, null, Red)
    {
      this.slot, this.price, this.side := slot, price, side;
      hook := TreeNode(null, null, null, Red);
      totalQuantity, orderCount, head, tail := 0, 0, null, null;
      queue, orders, view := [], {}, [];
    }

    ghost function HeapLinks(): map<Order, OrderLinks>
      reads this`orders, orders`prev, orders`next, orders`quantity
    {
      map o | o in orders :: OrderLinks(o.prev, o.next, o.quantity)
    }

    /** The links spell out the queue without repetition. */
    ghost predicate Linked()
      reads this`head, this`tail, this`queue, this`orders, this`view
      reads orders`prev, orders`next, orders`quantity
    {
      && head == First(queue) && tail == Last(queue)
      && orders == Members(queue) && Distinct(queue) && Chain(null, queue, view, HeapLinks())
    }

    /** Every order of the queue points back to this level. */
    ghost predicate Owned()
      reads this`orders, orders`level
    {
      forall o :: o in orders ==> o.level == this && o.side == side && o.price == price
    }

    /** The counters are the sum of the quantities, as far as 32 bits go, and the length of the queue. */
    ghost predicate Sound()
      reads this`totalQuantity, this`orderCount, this`head, this`tail, this`queue, this`orders, this`view
      reads orders`prev, orders`next, orders`quantity, orders`level
    {
      Linked() && Owned() && totalQuantity == Total(view) && orderCount == |queue|
    }

    lemma {:induction false} At(k: nat)
      requires Linked() && k < |queue|
      ensures |view| == |queue| && queue[k] in orders
      ensures view[k] == Resting(queue[k].id, queue[k].quantity, queue[k].arrival)
      ensures queue[k].prev == if k == 0 then null else queue[k - 1]
      ensures queue[k].next == if k + 1 < |queue| then queue[k + 1] else null
    {
      MemberAt(queue, k);
      ChainAt(null, queue, view, HeapLinks(), k);
    }

    method AddOrder(order: Order)
      requires Sound() && order !in orders && order.side == side && order.price == price
      modifies this`totalQuantity, this`orderCount, this`head, this`tail, this`queue, this`orders, this`view
      modifies order`next, order`prev, order`level, orders`next
      ensures Sound() && queue == old(queue) + [order] && orders == old(orders) + {order}
      ensures view == old(view) + [Resting(order.id, order.quantity, order.arrival)]
    {
      hide Linked, Total;
      TotalAdded(view, Resting(order.id, order.quantity, order.arrival));
      order.level := this;
      totalQuantity := (totalQuantity + order.quantity) % TWO_32;
      orderCount := orderCount + 1;
      Append(order);
    }

    method Append(order: Order)
      requires Linked() && order !in orders
      modifies this`head, this`tail, this`queue, this`orders, this`view, order`next, order`prev, orders`next
      ensures Linked() && queue == old(queue) + [order] && orders == old(orders) + {order}
      ensures view == old(view) + [Resting(order.id, order.quantity, order.arrival)]
    {
      hide Chain, Distinct, Members;
      ghost var q, v, m := queue, view, HeapLinks();
      ghost var r := Resting(order.id, order.quantity, order.arrival);
      MembersAppended(q, order);
      if q != [] {
        At(|q| - 1);
      }
      order.next := null;
      order.prev := tail;
      if tail != null {
        tail.next := order;
      } else {
        head := order;
      }
      tail := order;
      queue, orders, view := q + [order], orders + {order}, v + [r];
      ChainAppended(null, q, v, order, r, m, HeapLinks());
    }

    method RemoveOrder(order: Order, ghost k: nat)
      requires Sound() && k < |queue| && queue[k] == order
      modifies this`totalQuantity, this`orderCount, this`head, this`tail, this`queue, this`orders, this`view
      modifies orders`next, orders`prev, order`level
      ensures Sound() && queue == Omit(old(queue), k) && view == Omit(old(view), k) && orders == old(orders) - {order}
      ensures order.next == null && order.prev == null && order.level == null
    {
      hide Linked, Total;
      At(k);
      TotalRemoved(view, k);
      Unhook(order, k);
      totalQuantity := (totalQuantity - order.quantity) % TWO_32;
      orderCount := orderCount - 1;
      order.level := null;
    }

    /** The neighbours of the order, or the ends of the queue, are linked around it. */
    method Unhook(order: Order, ghost k: nat)
      requires Linked() && k < |queue| && queue[k] == order
      modifies this`head, this`tail, this`queue, this`orders, this`view, orders`next, orders`prev
      ensures Linked() && queue == Omit(old(queue), k) && view == Omit(old(view), k) && orders == old(orders) - {order}
      ensures |old(view)| == |old(queue)| && order.next == null && order.prev == null
    {
      hide Chain, Distinct, Members;
      ghost var q, v, m := queue, view, HeapLinks();
      MembersRemoved(q, k);
      Neighbours(k);
      if order.prev != null {
        order.prev.next := order.next;
      } else {
        head := order.next;
      }
      if order.next != null {
        order.next.prev := order.prev;
      } else {
        tail := order.prev;
      }
      order.next := null;
      order.prev := null;
      queue, orders, view := Omit(q, k), orders - {order}, Omit(v, k);
      ChainRemoved(null, q, v, k, m, HeapLinks());
      OmitEnds(q, k);
    }

    /** An order and the ones next to it are three members of the queue. */
    lemma {:induction false} Neighbours(k: nat)
      requires Linked() && k < |queue|
      ensures |view| == |queue| && queue[k] in orders
      ensures queue[k].prev == if k == 0 then null else queue[k - 1]
      ensures queue[k].next == if k + 1 < |queue| then queue[k + 1] else null
      ensures k > 0 ==> queue[k - 1] in orders && queue[k - 1] != queue[k]
      ensures k + 1 < |queue| ==> queue[k + 1] in orders && queue[k + 1] != queue[k]
      ensures 0 < k < |queue| - 1 ==> queue[k - 1] != queue[k + 1]
    {
      At(k);
      if k > 0 {
        MemberAt(queue, k - 1);
        DistinctAt(queue, k - 1, k);
      }
      if k + 1 < |queue| {
        MemberAt(queue, k + 1);
        DistinctAt(queue, k, k + 1);
      }
      if 0 < k < |queue| - 1 {
        DistinctAt(queue, k - 1, k + 1);
      }
    }

    /** A part of a resting order is filled. */
    method Reduce(order: Order, ghost k: nat, quantity: Quantity)
      requires Sound() && k < |queue| && queue[k] == order && quantity <= order.quantity
      modifies this`totalQuantity, this`view, order`quantity
      ensures order.quantity == old(order.quantity) - quantity
      ensures Sound() && k < |old(view)| && view == old(view)[k := old(view)[k].(qty := order.quantity)]
    {
      ghost var v, m := view, HeapLinks();
      At(k);
      TotalReduced(v, k, quantity);
      order.quantity := order.quantity - quantity;
      totalQuantity := (totalQuantity - quantity) % TWO_32;
      view := v[k := v[k].(qty := order.quantity)];
      ChainReduced(null, queue, v, k, order.quantity, m, HeapLinks());
    }

    predicate Vacant()
      reads this`head
    {
      head == null
    }
  }

  // ---------- queues as values ----------

  /** The fields of an order that its queue changes. */
  datatype OrderLinks = OrderLinks(prev: Order?, next: Order?, quantity: Quantity)

  ghost function First(q: seq<Order>): Order? { if q == [] then null else q[0] }
  ghost function Last(q: seq<Order>): Order? { if q == [] then null else q[|q| - 1] }

  ghost function Members(q: seq<Order>): set<Order> {
    if q == [] then {} else {q[0]} + Members(q[1..])
  }

  ghost predicate Distinct(q: seq<Order>) {
    q == [] || (q[0] !in Members(q[1..]) && Distinct(q[1..]))
  }

  /** The links spell out q, which `prev` precedes, and v is what rests with its orders. */
  ghost predicate Chain(prev: Order?, q: seq<Order>, v: seq<Resting>, m: map<Order, OrderLinks>)
    decreases q
  {
    |q| == |v| && (q == [] || (
      && q[0] in m && m[q[0]] == OrderLinks(prev, First(q[1..]), v[0].qty)
      && v[0].id == q[0].id && v[0].arrival == q[0].arrival
      && Chain(q[0], q[1..], v[1..], m)))
  }

  // ---------- members ----------

  lemma {:induction false} MembersAppended(q: seq<Order>, o: Order)
    ensures Members(q + [o]) == Members(q) + {o}
    ensures Distinct(q) && o !in Members(q) ==> Distinct(q + [o])
  {
    if q == [] {
      assert (q + [o])[1..] == [];
    } else {
      assert (q + [o])[1..] == q[1..] + [o];
      MembersAppended(q[1..], o);
    }
  }

  lemma {:induction false} MembersRemoved(q: seq<Order>, k: nat)
    requires Distinct(q) && k < |q|
    ensures var r := Omit(q, k);
      Members(r) == Members(q) - {q[k]} && Distinct(r) && q[k] in Members(q)
  {
    if k == 0 {
      assert Omit(q, k) == q[1..];
    } else {
      OmitLater(q, k);
      MembersRemoved(q[1..], k - 1);
    }
  }

  lemma {:induction false} MemberAt(q: seq<Order>, k: nat)
    requires k < |q|
    ensures q[k] in Members(q)
  {
    if k > 0 {
      MemberAt(q[1..], k - 1);
    }
  }

  lemma {:induction false} MemberIndex(q: seq<Order>, o: Order) returns (k: nat)
    requires o in Members(q)
    ensures k < |q| && q[k] == o
  {
    if q[0] == o {
      k := 0;
    } else {
      k := MemberIndex(q[1..], o);
      k := k + 1;
    }
  }

  lemma {:induction false} DistinctAt(q: seq<Order>, i: nat, j: nat)
    requires Distinct(q) && i < j < |q|
    ensures q[i] != q[j]
  {
    if i == 0 {
      MemberAt(q[1..], j - 1);
    } else {
      DistinctAt(q[1..], i - 1, j - 1);
    }
  }

  // ---------- chains ----------

  ghost predicate SameLinks(o: Order, m: map<Order, OrderLinks>, m': map<Order, OrderLinks>) {
    o in m ==> o in m' && m'[o] == m[o]
  }

  lemma {:induction false} ChainKept(prev: Order?, q: seq<Order>, v: seq<Resting>, m: map<Order, OrderLinks>,
      m': map<Order, OrderLinks>)
    requires Chain(prev, q, v, m) && forall o :: o in Members(q) ==> SameLinks(o, m, m')
    ensures Chain(prev, q, v, m')
    decreases q
  {
    if q != [] {
      assert SameLinks(q[0], m, m');
      ChainKept(q[0], q[1..], v[1..], m, m');
    }
  }

  lemma {:induction false} ChainAt(prev: Order?, q: seq<Order>, v: seq<Resting>, m: map<Order, OrderLinks>, k: nat)
    requires Chain(prev, q, v, m) && k < |q|
    ensures q[k] in m && m[q[k]] ==
      OrderLinks(if k == 0 then prev else q[k - 1], if k + 1 < |q| then q[k + 1] else null, v[k].qty)
    ensures v[k] == Resting(q[k].id, m[q[k]].quantity, q[k].arrival)
    decreases q
  {
    if k > 0 {
      ChainAt(q[0], q[1..], v[1..], m, k - 1);
    }
  }

  lemma {:induction false} ChainAppended(prev: Order?, q: seq<Order>, v: seq<Resting>, o: Order, r: Resting,
      m: map<Order, OrderLinks>, m': map<Order, OrderLinks>)
    requires Chain(prev, q, v, m) && Distinct(q) && r.id == o.id && r.arrival == o.arrival
    requires o in m' && m'[o] == OrderLinks(if q == [] then prev else Last(q), null, r.qty)
    requires q != [] ==> Last(q) in m && Last(q) in m' && m'[Last(q)] == m[Last(q)].(next := o)
    requires forall k :: k in Members(q) && k != Last(q) ==> SameLinks(k, m, m')
    ensures Chain(prev, q + [o], v + [r], m')
    decreases q
  {
    if q == [] {
      assert (q + [o])[1..] == [] && (v + [r])[1..] == [];
    } else {
      assert (q + [o])[1..] == q[1..] + [o] && (v + [r])[1..] == v[1..] + [r];
      if q[1..] != [] {
        DistinctAt(q, 0, |q| - 1);
        assert SameLinks(q[0], m, m');
      }
      ChainAppended(q[0], q[1..], v[1..], o, r, m, m');
    }
  }

  lemma {:induction false} OmitEnds(q: seq<Order>, k: nat)
    requires k < |q|
    ensures First(Omit(q, k)) == if k > 0 then q[0] else if |q| > 1 then q[1] else null
    ensures Last(Omit(q, k)) == if k < |q| - 1 then q[|q| - 1] else if k > 0 then q[k - 1] else null
  {
  }

  /** The order is neither element k nor next to it. */
  ghost predicate Elsewhere(o: Order, q: seq<Order>, k: nat)
    requires k < |q|
  {
    o != q[k] && (k > 0 ==> o != q[k - 1]) && (k + 1 < |q| ==> o != q[k + 1])
  }

  /** Element k is taken out: the element before it gets its successor, the one after it its predecessor. */
  lemma {:induction false} ChainRemoved(prev: Order?, q: seq<Order>, v: seq<Resting>, k: nat,
      m: map<Order, OrderLinks>, m': map<Order, OrderLinks>)
    requires Chain(prev, q, v, m) && Distinct(q) && k < |q|
    requires k > 0 ==>
      q[k - 1] in m && q[k - 1] in m' && m'[q[k - 1]] == m[q[k - 1]].(next := if k + 1 < |q| then q[k + 1] else null)
    requires k + 1 < |q| ==>
      q[k + 1] in m && q[k + 1] in m' && m'[q[k + 1]] == m[q[k + 1]].(prev := if k == 0 then prev else q[k - 1])
    requires forall o :: o in Members(q) && Elsewhere(o, q, k) ==> SameLinks(o, m, m')
    ensures Chain(prev, Omit(q, k), Omit(v, k), m')
    decreases q
  {
    if k == 0 {
      RemovedFirst(prev, q, v, m, m');
    } else {
      OmitLater(q, k);
      OmitLater(v, k);
      if k > 1 {
        DistinctAt(q, 0, k);
        DistinctAt(q, 0, k - 1);
        if k + 1 < |q| {
          DistinctAt(q, 0, k + 1);
        }
        assert SameLinks(q[0], m, m');
      }
      ChainRemoved(q[0], q[1..], v[1..], k - 1, m, m');
      ChainAt(prev, q, v, m, 0);
      assert k == 1 ==> First(Omit(q, k)[1..]) == if |q| > 2 then q[2] else null;
    }
  }

  lemma {:induction false} RemovedFirst(prev: Order?, q: seq<Order>, v: seq<Resting>, m: map<Order, OrderLinks>,
      m': map<Order, OrderLinks>)
    requires Chain(prev, q, v, m) && Distinct(q) && q != []
    requires |q| > 1 ==> q[1] in m && q[1] in m' && m'[q[1]] == m[q[1]].(prev := prev)
    requires forall o :: o in Members(q) && o != q[0] && (|q| > 1 ==> o != q[1]) ==> SameLinks(o, m, m')
    ensures Chain(prev, Omit(q, 0), Omit(v, 0), m')
  {
    assert Omit(q, 0) == q[1..] && Omit(v, 0) == v[1..];
    if |q| > 1 {
      assert q[1..][1..] == q[2..];
      ChainKept(q[1], q[1..][1..], v[1..][1..], m, m');
    }
  }

  /** Another quantity for element k. */
  lemma {:induction false} ChainReduced(prev: Order?, q: seq<Order>, v: seq<Resting>, k: nat, qty: Quantity,
      m: map<Order, OrderLinks>, m': map<Order, OrderLinks>)
    requires Chain(prev, q, v, m) && Distinct(q) && k < |q|
    requires q[k] in m && q[k] in m' && m'[q[k]] == m[q[k]].(quantity := qty)
    requires forall o :: o in Members(q) && o != q[k] ==> SameLinks(o, m, m')
    ensures Chain(prev, q, v[k := v[k].(qty := qty)], m')
    decreases q
  {
    var w := v[k := v[k].(qty := qty)];
    if k == 0 {
      assert w[1..] == v[1..];
      ChainKept(q[0], q[1..], v[1..], m, m');
    } else {
      assert w[1..] == v[1..][k - 1 := v[1..][k - 1].(qty := qty)];
      DistinctAt(q, 0, k);
      assert SameLinks(q[0], m, m');
      ChainReduced(q[0], q[1..], v[1..], k - 1, qty, m, m');
    }
  }

  // ---------- quantities ----------

  lemma {:induction false} QueuedAdded(view: seq<Resting>, r: Resting)
    ensures Queued(view + [r]) == Queued(view) + r.qty
  {
    QueuedAppend(view, [r]);
    assert [r][1..] == [];
  }

  lemma {:induction false} QueuedAt(view: seq<Resting>, k: nat)
    requires k < |view|
    ensures Queued(view) == Queued(view[..k]) + view[k].qty + Queued(view[k + 1..])
  {
    QueuedAdded(view[..k], view[k]);
    QueuedAppend(view[..k] + [view[k]], view[k + 1..]);
    assert view == view[..k] + [view[k]] + view[k + 1..];
  }

  /** The total quantity, which wraps around at 32 bits. */
  ghost function Total(view: seq<Resting>): Quantity { Queued(view) % TWO_32 }

  lemma {:induction false} TotalAdded(view: seq<Resting>, r: Resting)
    ensures Total(view + [r]) == (Total(view) + r.qty) % TWO_32
  {
    QueuedAdded(view, r);
  }

  lemma {:induction false} TotalRemoved(view: seq<Resting>, k: nat)
    requires k < |view|
    ensures Total(Omit(view, k)) == (Total(view) - view[k].qty) % TWO_32
  {
    QueuedAt(view, k);
    QueuedAppend(view[..k], view[k + 1..]);
  }

  lemma {:induction false} TotalReduced(view: seq<Resting>, k: nat, less: Quantity)
    requires k < |view| && less <= view[k].qty
    ensures Total(view[k := view[k].(qty := view[k].qty - less)]) == (Total(view) - less) % TWO_32
  {
    var w := view[k := view[k].(qty := view[k].qty - less)];
    QueuedAt(view, k);
    QueuedAt(w, k);
    assert w[..k] == view[..k] && w[k + 1..] == view[k + 1..];
  }
}
