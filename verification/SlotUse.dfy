/** Which slots of a pool are in use. Slots and identities never change, so none of this reads the heap. */
module SlotUse {
  import opened Types
  import opened Levels
  import opened ObjectPools

  /** Every order has a slot of its own, and it is not free. */
  ghost predicate OrderSlots(orders: set<Order>, free: seq<int>, size: nat) {
    && (forall o :: o in orders ==> 0 <= o.slot < size && o.slot !in free)
    && (forall o, p :: o in orders && p in orders && o.slot == p.slot ==> o == p)
  }

  ghost predicate LevelSlots(levels: set<PriceLevel>, free: seq<int>, size: nat) {
    && (forall l :: l in levels ==> 0 <= l.slot < size && l.slot !in free)
    && (forall k, l :: k in levels && l in levels && k.slot == l.slot ==> k == l)
  }

  lemma {:induction false} OrderAcquired(orders: set<Order>, o: Order, free: seq<int>, rest: seq<int>, size: nat)
    requires OrderSlots(orders, free, size) && free == [o.slot] + rest && 0 <= o.slot < size && o.slot !in rest
    ensures OrderSlots(orders + {o}, rest, size) && o !in orders
  {
    assert o.slot in free;
  }

  lemma {:induction false} OrderReleased(orders: set<Order>, o: Order, free: seq<int>, size: nat)
    requires OrderSlots(orders, free, size) && o in orders
    ensures OrderSlots(orders - {o}, [o.slot] + free, size) && 0 <= o.slot < size && o.slot !in free
  {
  }

  lemma {:induction false} LevelAcquired(levels: set<PriceLevel>, l: PriceLevel, free: seq<int>, rest: seq<int>,
      size: nat)
    requires LevelSlots(levels, free, size) && free == [l.slot] + rest && 0 <= l.slot < size && l.slot !in rest
    ensures LevelSlots(levels + {l}, rest, size) && l !in levels
  {
    assert l.slot in free;
  }

  lemma {:induction false} LevelReleased(levels: set<PriceLevel>, l: PriceLevel, free: seq<int>, size: nat)
    requires LevelSlots(levels, free, size) && l in levels
    ensures LevelSlots(levels - {l}, [l.slot] + free, size) && 0 <= l.slot < size && l.slot !in free
  {
  }

  /** The map finds exactly these orders by their identities. */
  ghost predicate Indexed(orders: set<Order>, contents: map<OrderId, Order>) {
    && (forall o :: o in orders ==> o.id in contents && contents[o.id] == o)
    && (forall id :: id in contents ==> contents[id] in orders && contents[id].id == id)
  }

  lemma {:induction false} IndexedMore(orders: set<Order>, contents: map<OrderId, Order>, o: Order)
    requires Indexed(orders, contents) && o.id !in contents
    ensures Indexed(orders + {o}, contents[o.id := o]) && |contents[o.id := o]| == |contents| + 1
  {
  }

  lemma {:induction false} IndexedLess(orders: set<Order>, contents: map<OrderId, Order>, o: Order)
    requires Indexed(orders, contents) && o in orders
    ensures o.id in contents && Indexed(orders - {o}, contents - {o.id}) && |contents - {o.id}| == |contents| - 1
  {
    var rest := contents - {o.id};
    assert rest.Keys == contents.Keys - {o.id};
    assert |contents.Keys| == |contents| && |rest.Keys| == |rest|;
  }
}
