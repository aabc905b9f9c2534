/** A ladder: the price levels of one side, best price first, each with its queue of orders. */
module Ladders {
  import opened Sequences
  import opened Types
  import opened Sweeps

  // ---------- order identities ----------

  function QueueIds(queue: seq<Resting>): multiset<OrderId> {
    if queue == [] then multiset{} else multiset{queue[0].id} + QueueIds(queue[1..])
  }

  function Ids(levels: seq<Level>): multiset<OrderId> {
    if levels == [] then multiset{} else QueueIds(levels[0].queue) + Ids(levels[1..])
  }

  lemma {:induction false} QueueIdsAppend(a: seq<Resting>, b: seq<Resting>)
    ensures QueueIds(a + b) == QueueIds(a) + QueueIds(b)
  {
    if a == [] {
      assert a + b == b;
    } else {
      assert (a + b)[1..] == a[1..] + b;
      QueueIdsAppend(a[1..], b);
    }
  }

  lemma {:induction false} QueuedAppend(a: seq<Resting>, b: seq<Resting>)
    ensures Queued(a + b) == Queued(a) + Queued(b)
  {
    if a == [] {
      assert a + b == b;
    } else {
      assert (a + b)[1..] == a[1..] + b;
      QueuedAppend(a[1..], b);
    }
  }

  // ---------- invariants ----------

  /** Prices get strictly worse. */
  predicate Sorted(side: Side, levels: seq<Level>) {
    |levels| < 2 || (Less(side, levels[0].price, levels[1].price) && Sorted(side, levels[1..]))
  }

  /** The queue is in order of arrival; all its orders arrived at or after `from` and before `clock`. */
  predicate InArrivalOrder(queue: seq<Resting>, from: nat, clock: nat)
    decreases queue
  {
    queue == [] || (from <= queue[0].arrival < clock && InArrivalOrder(queue[1..], queue[0].arrival + 1, clock))
  }

  predicate Timely(levels: seq<Level>, clock: nat) {
    levels == [] || (InArrivalOrder(levels[0].queue, 0, clock) && Timely(levels[1..], clock))
  }

  predicate WellFormed(side: Side, levels: seq<Level>, clock: nat) {
    Sorted(side, levels) && NonEmpty(levels) && Timely(levels, clock)
  }

  lemma {:induction false} ArrivalRelaxed(queue: seq<Resting>, from: nat, clock: nat, from': nat, clock': nat)
    requires InArrivalOrder(queue, from, clock) && from' <= from && clock <= clock'
    ensures InArrivalOrder(queue, from', clock')
    decreases queue
  {
    if queue != [] {
      ArrivalRelaxed(queue[1..], queue[0].arrival + 1, clock, queue[0].arrival + 1, clock');
    }
  }

  lemma {:induction false} TimelyRelaxed(levels: seq<Level>, clock: nat, clock': nat)
    requires Timely(levels, clock) && clock <= clock'
    ensures Timely(levels, clock')
  {
    if levels != [] {
      ArrivalRelaxed(levels[0].queue, 0, clock, 0, clock');
      TimelyRelaxed(levels[1..], clock, clock');
    }
  }

  lemma {:induction false} ArrivalIndexed(queue: seq<Resting>, from: nat, clock: nat)
    requires InArrivalOrder(queue, from, clock)
    ensures forall i :: 0 <= i < |queue| ==> from <= queue[i].arrival < clock
    ensures forall i, j :: 0 <= i < j < |queue| ==> queue[i].arrival < queue[j].arrival
    decreases queue
  {
    if queue != [] {
      ArrivalIndexed(queue[1..], queue[0].arrival + 1, clock);
    }
  }

  lemma {:induction false} SortedIndexed(side: Side, levels: seq<Level>)
    requires Sorted(side, levels)
    ensures forall i, j :: 0 <= i < j < |levels| ==> Less(side, levels[i].price, levels[j].price)
  {
    if |levels| >= 2 {
      SortedIndexed(side, levels[1..]);
      forall i, j | 0 <= i < j < |levels| ensures Less(side, levels[i].price, levels[j].price) {
        assert levels[j] == levels[1..][j - 1];
        assert i > 0 ==> levels[i] == levels[1..][i - 1];
        assert j > 1 ==> Less(side, levels[1..][0].price, levels[1..][j - 1].price);
      }
    }
  }

  // ---------- a sweep keeps them ----------

  lemma {:induction false} FillArrivals(side: Side, price: Price, qty: Quantity, queue: seq<Resting>, from: nat,
      clock: nat)
    requires InArrivalOrder(queue, from, clock)
    ensures InArrivalOrder(FillLevel(side, price, qty, queue).rest, from, clock)
    decreases queue
  {
    if qty > 0 && queue != [] {
      var m := Min(qty, queue[0].qty);
      if m == queue[0].qty {
        FillArrivals(side, price, qty - m, queue[1..], queue[0].arrival + 1, clock);
        ArrivalRelaxed(FillLevel(side, price, qty - m, queue[1..]).rest, queue[0].arrival + 1, clock, from, clock);
      } else {
        var rest := [queue[0].(qty := queue[0].qty - m)] + queue[1..];
        assert rest[1..] == queue[1..];
      }
    }
  }

  lemma {:induction false} FillIds(side: Side, price: Price, qty: Quantity, queue: seq<Resting>)
    ensures QueueIds(FillLevel(side, price, qty, queue).rest) <= QueueIds(queue)
  {
    if qty > 0 && queue != [] {
      var m := Min(qty, queue[0].qty);
      if m == queue[0].qty {
        FillIds(side, price, qty - m, queue[1..]);
        Wider(QueueIds(FillLevel(side, price, qty - m, queue[1..]).rest), QueueIds(queue[1..]), multiset{queue[0].id});
      } else {
        SameIds(queue, queue[0].(qty := queue[0].qty - m));
      }
    }
  }

  lemma {:induction false} Wider(a: multiset<OrderId>, b: multiset<OrderId>, c: multiset<OrderId>)
    requires a <= b
    ensures a <= c + b
  {
  }

  lemma {:induction false} SameIds(queue: seq<Resting>, o: Resting)
    requires queue != [] && o.id == queue[0].id
    ensures QueueIds([o] + queue[1..]) == QueueIds(queue)
  {
    assert ([o] + queue[1..])[1..] == queue[1..];
  }

  lemma {:induction false} SweepIds(side: Side, limit: Price, qty: Quantity, levels: seq<Level>)
    ensures Ids(Sweep(side, limit, qty, levels).rest) <= Ids(levels)
    decreases levels
  {
    if qty > 0 && levels != [] && Acceptable(side, limit, levels[0].price) {
      FillIds(side, levels[0].price, qty, levels[0].queue);
      var f := FillLevel(side, levels[0].price, qty, levels[0].queue);
      if f.rest == [] {
        SweepIds(side, limit, f.left, levels[1..]);
      } else {
        var s := [Level(levels[0].price, f.rest)] + levels[1..];
        assert s[1..] == levels[1..];
      }
    }
  }

  /** What rests after a sweep is a ladder again, starting no better than before, and shorter if quantity is left. */
  lemma {:induction false} SweepKeeps(side: Side, limit: Price, qty: Quantity, levels: seq<Level>, clock: nat)
    requires WellFormed(Opposite(side), levels, clock)
    ensures var s := Sweep(side, limit, qty, levels);
      && WellFormed(Opposite(side), s.rest, clock) && |s.rest| <= |levels|
      && (s.rest != [] ==> s.rest[0].price == levels[0].price || Less(Opposite(side), levels[0].price, s.rest[0].price))
      && (s.left > 0 && levels != [] && Acceptable(side, limit, levels[0].price) ==> |s.rest| < |levels|)
    decreases levels
  {
    if qty > 0 && levels != [] && Acceptable(side, limit, levels[0].price) {
      FillArrivals(side, levels[0].price, qty, levels[0].queue, 0, clock);
      FillConserves(side, levels[0].price, qty, levels[0].queue);
      var f := FillLevel(side, levels[0].price, qty, levels[0].queue);
      if f.rest == [] {
        SweepKeeps(side, limit, f.left, levels[1..], clock);
      } else {
        var s := [Level(levels[0].price, f.rest)] + levels[1..];
        assert s[1..] == levels[1..];
      }
    }
  }

  /** The offers of a ladder, as the other side sees them, are in order of price. */
  lemma {:induction false} FlattenByPrice(side: Side, levels: seq<Level>)
    requires Sorted(Opposite(side), levels) && NonEmpty(levels)
    ensures ByPrice(side, Flatten(levels))
    ensures levels != [] ==> Flatten(levels) != [] && Flatten(levels)[0].price == levels[0].price
  {
    if levels != [] {
      FlattenByPrice(side, levels[1..]);
      var p := Along(side, levels[0].price);
      if |levels| > 1 {
        DearerMonotone(side, p, Along(side, levels[1].price), Flatten(levels[1..]));
      }
      OffersDearer(side, levels[0].price, levels[0].queue, Flatten(levels[1..]));
    }
  }

  lemma {:induction false} OffersDearer(side: Side, price: Price, queue: seq<Resting>, more: seq<Offer>)
    requires Dearer(side, Along(side, price), more)
    ensures Dearer(side, Along(side, price), Offers(price, queue) + more)
  {
    if queue == [] {
      assert Offers(price, queue) + more == more;
    } else {
      OffersDearer(side, price, queue[1..], more);
      OffersFront(price, queue, more);
    }
  }

  // ---------- an order comes to rest ----------

  predicate HasPrice(levels: seq<Level>, price: Price) {
    levels != [] && (levels[0].price == price || HasPrice(levels[1..], price))
  }

  /** The order joins the queue of its price, or opens a level of its own. */
  function Enqueue(side: Side, levels: seq<Level>, price: Price, o: Resting): seq<Level> {
    if levels == [] || Less(side, price, levels[0].price) then [Level(price, [o])] + levels
    else if levels[0].price == price then [Level(price, levels[0].queue + [o])] + levels[1..]
    else [levels[0]] + Enqueue(side, levels[1..], price, o)
  }

  lemma {:induction false} SortedFront(side: Side, l: Level, levels: seq<Level>)
    ensures Sorted(side, [l] + levels) <==>
      Sorted(side, levels) && (levels != [] ==> Less(side, l.price, levels[0].price))
  {
    assert ([l] + levels)[1..] == levels;
    assert levels != [] ==> ([l] + levels)[1] == levels[0];
  }

  lemma {:induction false} ArrivalAppend(queue: seq<Resting>, from: nat, clock: nat, o: Resting)
    requires InArrivalOrder(queue, from, clock) && o.arrival == clock && from <= clock
    ensures InArrivalOrder(queue + [o], from, clock + 1)
    decreases queue
  {
    if queue == [] {
      assert (queue + [o])[1..] == [];
    } else {
      ArrivalAppend(queue[1..], queue[0].arrival + 1, clock, o);
      assert (queue + [o])[1..] == queue[1..] + [o];
    }
  }

  lemma {:induction false} EnqueueSorted(side: Side, levels: seq<Level>, price: Price, o: Resting)
    requires Sorted(side, levels)
    ensures var r := Enqueue(side, levels, price, o);
      && Sorted(side, r) && r != []
      && r[0].price == (if levels == [] || Less(side, price, levels[0].price) then price else levels[0].price)
    decreases levels
  {
    if levels == [] || Less(side, price, levels[0].price) {
      SortedFront(side, Level(price, [o]), levels);
    } else if levels[0].price == price {
      SortedFront(side, Level(price, levels[0].queue + [o]), levels[1..]);
    } else {
      EnqueueSorted(side, levels[1..], price, o);
      SortedFront(side, levels[0], Enqueue(side, levels[1..], price, o));
    }
  }

  lemma {:induction false} EnqueueTimely(side: Side, levels: seq<Level>, price: Price, o: Resting)
    requires NonEmpty(levels) && Timely(levels, o.arrival)
    ensures NonEmpty(Enqueue(side, levels, price, o)) && Timely(Enqueue(side, levels, price, o), o.arrival + 1)
    decreases levels
  {
    var r := Enqueue(side, levels, price, o);
    TimelyRelaxed(levels, o.arrival, o.arrival + 1);
    if levels == [] || Less(side, price, levels[0].price) {
      assert r[1..] == levels && [o][1..] == [];
    } else if levels[0].price == price {
      ArrivalAppend(levels[0].queue, 0, o.arrival, o);
      assert r[1..] == levels[1..];
    } else {
      EnqueueTimely(side, levels[1..], price, o);
      assert r[1..] == Enqueue(side, levels[1..], price, o);
    }
  }

  lemma {:induction false} EnqueueIds(side: Side, levels: seq<Level>, price: Price, o: Resting)
    ensures Ids(Enqueue(side, levels, price, o)) == Ids(levels) + multiset{o.id}
    decreases levels
  {
    var r := Enqueue(side, levels, price, o);
    assert QueueIds([o]) == multiset{o.id} by {
      assert [o][1..] == [];
    }
    if levels == [] || Less(side, price, levels[0].price) {
      assert r[1..] == levels;
    } else if levels[0].price == price {
      QueueIdsAppend(levels[0].queue, [o]);
      assert r[1..] == levels[1..];
    } else {
      EnqueueIds(side, levels[1..], price, o);
      assert r[1..] == Enqueue(side, levels[1..], price, o);
    }
  }

  lemma {:induction false} EnqueueTotals(side: Side, levels: seq<Level>, price: Price, o: Resting)
    requires Sorted(side, levels)
    ensures var r := Enqueue(side, levels, price, o);
      && Quantities(r) == Quantities(levels) + o.qty
      && |r| == |levels| + (if HasPrice(levels, price) then 0 else 1)
    decreases levels
  {
    var r := Enqueue(side, levels, price, o);
    assert Queued([o]) == o.qty by {
      assert [o][1..] == [];
    }
    if levels == [] || Less(side, price, levels[0].price) {
      NoBetterPrice(side, levels, price);
      assert r[1..] == levels;
    } else if levels[0].price == price {
      QueuedAppend(levels[0].queue, [o]);
      assert r[1..] == levels[1..];
    } else {
      EnqueueTotals(side, levels[1..], price, o);
      assert r[1..] == Enqueue(side, levels[1..], price, o);
    }
  }

  lemma {:induction false} NoBetterPrice(side: Side, levels: seq<Level>, price: Price)
    requires Sorted(side, levels) && (levels != [] ==> Less(side, price, levels[0].price))
    ensures !HasPrice(levels, price)
  {
    if levels != [] {
      NoBetterPrice(side, levels[1..], price);
    }
  }

  lemma {:induction false} FlattenFront(l: Level, levels: seq<Level>)
    ensures Flatten([l] + levels) == Offers(l.price, l.queue) + Flatten(levels)
  {
    assert ([l] + levels)[1..] == levels;
  }

  lemma {:induction false} Regroup<T>(f: seq<T>, a: seq<T>, x: T, b: seq<T>)
    ensures f + (a + [x] + b) == (f + a) + [x] + b && f + (a + b) == (f + a) + b
  {
  }

  /** Price-time priority: the order comes after every offer that is not worse, and before every worse one. */
  lemma {:induction false} EnqueuePriority(side: Side, levels: seq<Level>, price: Price, o: Resting)
      returns (a: seq<Offer>, b: seq<Offer>)
    requires Sorted(side, levels)
    ensures Flatten(levels) == a + b && Flatten(Enqueue(side, levels, price, o)) == a + [Offer(price, o)] + b
    ensures forall x :: x in a ==> !Less(side, price, x.price)
    ensures forall x :: x in b ==> Less(side, price, x.price)
    decreases levels
  {
    hide Offers;
    if levels == [] || Less(side, price, levels[0].price) {
      a, b := [], Flatten(levels);
      FlattenFront(Level(price, [o]), levels);
      AllWorse(side, levels, price);
      OffersOf(price, [o]);
    } else if levels[0].price == price {
      a, b := Offers(price, levels[0].queue), Flatten(levels[1..]);
      FlattenFront(Level(price, levels[0].queue + [o]), levels[1..]);
      AllWorse(side, levels[1..], price);
      OffersAppend(price, levels[0].queue, o);
      OffersOf(price, levels[0].queue);
    } else {
      var c;
      c, b := EnqueuePriority(side, levels[1..], price, o);
      FlattenFront(levels[0], Enqueue(side, levels[1..], price, o));
      var f := Offers(levels[0].price, levels[0].queue);
      OffersOf(levels[0].price, levels[0].queue);
      a := f + c;
      Regroup(f, c, Offer(price, o), b);
    }
  }

  lemma {:induction false} OffersOf(price: Price, queue: seq<Resting>)
    ensures |Offers(price, queue)| == |queue|
    ensures forall i :: 0 <= i < |queue| ==> Offers(price, queue)[i] == Offer(price, queue[i])
  {
    if queue != [] {
      OffersOf(price, queue[1..]);
    }
  }

  lemma {:induction false} OffersAppend(price: Price, queue: seq<Resting>, o: Resting)
    ensures Offers(price, queue + [o]) == Offers(price, queue) + [Offer(price, o)]
  {
    if queue == [] {
      OffersOf(price, [o]);
    } else {
      assert (queue + [o])[1..] == queue[1..] + [o];
      OffersAppend(price, queue[1..], o);
    }
  }

  lemma {:induction false} AllWorse(side: Side, levels: seq<Level>, price: Price)
    requires Sorted(side, levels) && (levels != [] ==> Less(side, price, levels[0].price))
    ensures forall x :: x in Flatten(levels) ==> Less(side, price, x.price)
  {
    if levels != [] {
      AllWorse(side, levels[1..], price);
      OffersOf(levels[0].price, levels[0].queue);
    }
  }

  // ---------- an order is taken out ----------

  function Remove(queue: seq<Resting>, id: OrderId): seq<Resting> {
    if queue == [] then [] else if queue[0].id == id then queue[1..] else [queue[0]] + Remove(queue[1..], id)
  }

  /** The order leaves its queue, and its level goes if it was the last one there. */
  function Without(levels: seq<Level>, id: OrderId): seq<Level> {
    if levels == [] then []
    else if id in QueueIds(levels[0].queue) then
      var q := Remove(levels[0].queue, id);
      if q == [] then levels[1..] else [Level(levels[0].price, q)] + levels[1..]
    else [levels[0]] + Without(levels[1..], id)
  }

  /** The resting order with an id, which must be there. */
  function Find(queue: seq<Resting>, id: OrderId): (r: Resting)
    requires id in QueueIds(queue)
    ensures r.id == id && r in queue
  {
    if queue[0].id == id then queue[0] else Find(queue[1..], id)
  }

  function FindLevel(levels: seq<Level>, id: OrderId): (r: Level)
    requires id in Ids(levels)
    ensures r in levels && id in QueueIds(r.queue)
  {
    if id in QueueIds(levels[0].queue) then levels[0] else FindLevel(levels[1..], id)
  }

  lemma {:induction false} RemoveArrivals(queue: seq<Resting>, id: OrderId, from: nat, clock: nat)
    requires InArrivalOrder(queue, from, clock)
    ensures InArrivalOrder(Remove(queue, id), from, clock)
    decreases queue
  {
    if queue == [] {
    } else if queue[0].id == id {
      ArrivalRelaxed(queue[1..], queue[0].arrival + 1, clock, from, clock);
    } else {
      RemoveArrivals(queue[1..], id, queue[0].arrival + 1, clock);
      var r := [queue[0]] + Remove(queue[1..], id);
      assert r[1..] == Remove(queue[1..], id);
    }
  }

  lemma {:induction false} RemoveIds(queue: seq<Resting>, id: OrderId)
    requires id in QueueIds(queue)
    ensures QueueIds(Remove(queue, id)) == QueueIds(queue) - multiset{id}
  {
    if queue[0].id != id {
      RemoveIds(queue[1..], id);
      var r := [queue[0]] + Remove(queue[1..], id);
      assert r[1..] == Remove(queue[1..], id);
    }
  }

  lemma {:induction false} RemoveTotals(queue: seq<Resting>, id: OrderId)
    requires id in QueueIds(queue)
    ensures Queued(Remove(queue, id)) + Find(queue, id).qty == Queued(queue) && |Remove(queue, id)| == |queue| - 1
  {
    if queue[0].id != id {
      RemoveTotals(queue[1..], id);
      var r := [queue[0]] + Remove(queue[1..], id);
      assert r[1..] == Remove(queue[1..], id);
    }
  }

  lemma {:induction false} WithoutSorted(side: Side, levels: seq<Level>, id: OrderId)
    requires Sorted(side, levels)
    ensures var r := Without(levels, id);
      Sorted(side, r) && (r != [] ==> r[0].price == levels[0].price || Less(side, levels[0].price, r[0].price))
    decreases levels
  {
    if levels == [] {
    } else if id in QueueIds(levels[0].queue) {
      SortedFront(side, Level(levels[0].price, Remove(levels[0].queue, id)), levels[1..]);
    } else {
      WithoutSorted(side, levels[1..], id);
      SortedFront(side, levels[0], Without(levels[1..], id));
    }
  }

  lemma {:induction false} WithoutTimely(levels: seq<Level>, id: OrderId, clock: nat)
    requires NonEmpty(levels) && Timely(levels, clock)
    ensures NonEmpty(Without(levels, id)) && Timely(Without(levels, id), clock)
    decreases levels
  {
    if levels == [] {
    } else if id in QueueIds(levels[0].queue) {
      var l := Level(levels[0].price, Remove(levels[0].queue, id));
      RemoveArrivals(levels[0].queue, id, 0, clock);
      assert ([l] + levels[1..])[1..] == levels[1..];
    } else {
      WithoutTimely(levels[1..], id, clock);
      assert ([levels[0]] + Without(levels[1..], id))[1..] == Without(levels[1..], id);
    }
  }

  lemma {:induction false} WithoutIds(levels: seq<Level>, id: OrderId)
    requires id in Ids(levels)
    ensures Ids(Without(levels, id)) == Ids(levels) - multiset{id}
    decreases levels
  {
    if id in QueueIds(levels[0].queue) {
      var l := Level(levels[0].price, Remove(levels[0].queue, id));
      RemoveIds(levels[0].queue, id);
      assert ([l] + levels[1..])[1..] == levels[1..];
    } else {
      WithoutIds(levels[1..], id);
      assert ([levels[0]] + Without(levels[1..], id))[1..] == Without(levels[1..], id);
    }
  }

  /** The quantity taken out is that of the order, and a level goes exactly if the order was alone on it. */
  lemma {:induction false} WithoutTotals(levels: seq<Level>, id: OrderId)
    requires id in Ids(levels)
    ensures var r, q := Without(levels, id), FindLevel(levels, id).queue;
      Quantities(r) + Find(q, id).qty == Quantities(levels) && |r| == |levels| - (if |q| == 1 then 1 else 0)
    decreases levels
  {
    if id in QueueIds(levels[0].queue) {
      var l := Level(levels[0].price, Remove(levels[0].queue, id));
      RemoveTotals(levels[0].queue, id);
      assert ([l] + levels[1..])[1..] == levels[1..];
    } else {
      WithoutTotals(levels[1..], id);
      assert ([levels[0]] + Without(levels[1..], id))[1..] == Without(levels[1..], id);
    }
  }

  lemma {:induction false} WithoutPrices(levels: seq<Level>, id: OrderId, p: Price)
    requires id in Ids(levels) && |FindLevel(levels, id).queue| != 1
    ensures HasPrice(Without(levels, id), p) <==> HasPrice(levels, p)
    decreases levels
  {
    if id in QueueIds(levels[0].queue) {
      var l := Level(levels[0].price, Remove(levels[0].queue, id));
      RemoveTotals(levels[0].queue, id);
      assert ([l] + levels[1..])[1..] == levels[1..];
    } else {
      WithoutPrices(levels[1..], id, p);
      assert ([levels[0]] + Without(levels[1..], id))[1..] == Without(levels[1..], id);
    }
  }

  /** Exactly the offer with the id goes; all others keep their order. */
  lemma {:induction false} WithoutPriority(levels: seq<Level>, id: OrderId)
      returns (a: seq<Offer>, x: Offer, b: seq<Offer>)
    requires id in Ids(levels)
    ensures x.order.id == id && Flatten(levels) == a + [x] + b && Flatten(Without(levels, id)) == a + b
    decreases levels
  {
    var l := levels[0];
    if id in QueueIds(l.queue) {
      a, x, b := WithoutHere(levels, id);
    } else {
      var c, f := [], Offers(l.price, l.queue);
      c, x, b := WithoutPriority(levels[1..], id);
      a := f + c;
      Regroup(f, c, x, b);
      FlattenFront(l, Without(levels[1..], id));
    }
  }

  lemma {:induction false} WithoutHere(levels: seq<Level>, id: OrderId) returns (a: seq<Offer>, x: Offer, b: seq<Offer>)
    requires levels != [] && id in QueueIds(levels[0].queue)
    ensures x.order.id == id && Flatten(levels) == a + [x] + b && Flatten(Without(levels, id)) == a + b
  {
    var l, more := levels[0], Flatten(levels[1..]);
    var i := RemovePriority(l.price, l.queue, id);
    var f, q := Offers(l.price, l.queue), Remove(l.queue, id);
    a, x, b := f[..i], f[i], f[i + 1..] + more;
    Extract(f, i, more);
    if q == [] {
      assert Offers(l.price, q) + more == more;
    } else {
      FlattenFront(Level(l.price, q), levels[1..]);
    }
  }

  lemma {:induction false} Extract<T>(f: seq<T>, i: nat, more: seq<T>)
    requires i < |f|
    ensures f + more == f[..i] + [f[i]] + (f[i + 1..] + more)
    ensures Omit(f, i) + more == f[..i] + (f[i + 1..] + more)
  {
  }

  lemma {:induction false} RemovePriority(price: Price, queue: seq<Resting>, id: OrderId) returns (i: nat)
    requires id in QueueIds(queue)
    ensures i < |queue| && i < |Offers(price, queue)|
    ensures queue[i].id == id && Offers(price, queue)[i] == Offer(price, queue[i])
    ensures Offers(price, Remove(queue, id)) == Omit(Offers(price, queue), i)
  {
    if queue[0].id == id {
      i := 0;
    } else {
      var j := RemovePriority(price, queue[1..], id);
      i := j + 1;
      var r := [queue[0]] + Remove(queue[1..], id);
      assert r[1..] == Remove(queue[1..], id);
    }
  }

  // ---------- prices that are not the invalid one ----------

  predicate Quoted(levels: seq<Level>) {
    levels == [] || (levels[0].price != INVALID_PRICE && Quoted(levels[1..]))
  }

  lemma {:induction false} EnqueueQuoted(side: Side, levels: seq<Level>, price: Price, o: Resting)
    requires Quoted(levels) && price != INVALID_PRICE
    ensures Quoted(Enqueue(side, levels, price, o))
    decreases levels
  {
    var r := Enqueue(side, levels, price, o);
    if levels == [] || Less(side, price, levels[0].price) {
      assert r[1..] == levels;
    } else if levels[0].price == price {
      assert r[1..] == levels[1..];
    } else {
      EnqueueQuoted(side, levels[1..], price, o);
      assert r[1..] == Enqueue(side, levels[1..], price, o);
    }
  }

  lemma {:induction false} SweepQuoted(side: Side, limit: Price, qty: Quantity, levels: seq<Level>)
    requires Quoted(levels)
    ensures Quoted(Sweep(side, limit, qty, levels).rest)
    decreases levels
  {
    if qty > 0 && levels != [] && Acceptable(side, limit, levels[0].price) {
      var f := FillLevel(side, levels[0].price, qty, levels[0].queue);
      if f.rest == [] {
        SweepQuoted(side, limit, f.left, levels[1..]);
      } else {
        var s := [Level(levels[0].price, f.rest)] + levels[1..];
        assert s[1..] == levels[1..];
      }
    }
  }

  lemma {:induction false} WithoutQuoted(levels: seq<Level>, id: OrderId)
    requires Quoted(levels)
    ensures Quoted(Without(levels, id))
    decreases levels
  {
    if levels == [] {
    } else if id in QueueIds(levels[0].queue) {
      var l := Level(levels[0].price, Remove(levels[0].queue, id));
      assert ([l] + levels[1..])[1..] == levels[1..];
    } else {
      WithoutQuoted(levels[1..], id);
      assert ([levels[0]] + Without(levels[1..], id))[1..] == Without(levels[1..], id);
    }
  }
}
