/** The order book as a value, and what adding, cancelling and modifying an order do to it. */
module BookSpec {
  import opened Types
  import opened Sweeps
  import opened Ladders

  /** How many orders and levels the pools hold. */
  datatype Limits = Limits(orders: nat, levels: nat)

  /** The two ladders, and the number of orders that have come to rest so far. */
  datatype Book = Book(bids: seq<Level>, asks: seq<Level>, clock: nat)

  datatype Outcome = Outcome(book: Book, trades: seq<Trade>, ok: bool)

  const EMPTY := Book([], [], 0)

  function Ladder(b: Book, side: Side): seq<Level> { if side.Buy? then b.bids else b.asks }

  function WithLadder(b: Book, side: Side, levels: seq<Level>): Book {
    if side.Buy? then b.(bids := levels) else b.(asks := levels)
  }

  function OrderIds(b: Book): multiset<OrderId> { Ids(b.bids) + Ids(b.asks) }

  function LevelCount(b: Book): nat { |b.bids| + |b.asks| }

  function Volume(b: Book): nat { Quantities(b.bids) + Quantities(b.asks) }

  function Best(levels: seq<Level>): Price { if levels == [] then INVALID_PRICE else levels[0].price }

  /** The guard before matching. */
  predicate Crosses(b: Book, side: Side, price: Price) {
    var best := Best(Ladder(b, Opposite(side)));
    Acceptable(side, price, best) && best != INVALID_PRICE
  }

  function Rest(lim: Limits, b: Book, id: OrderId, side: Side, price: Price, qty: Quantity,
      trades: seq<Trade>): (r: Outcome)
    ensures r.trades == trades
  {
    if !HasPrice(Ladder(b, side), price) && LevelCount(b) >= lim.levels then Outcome(b, trades, false)
    else
      var levels := Enqueue(side, Ladder(b, side), price, Resting(id, qty, b.clock));
      Outcome(WithLadder(b, side, levels).(clock := b.clock + 1), trades, true)
  }

  /** Coming to rest in two steps: a level for the price is found or opened, then the order joins its queue. */
  lemma {:induction false} RestSteps(lim: Limits, b: Book, o: Resting, side: Side, price: Price, trades: seq<Trade>,
                                     levels: seq<Level>, i: nat, queue: seq<Resting>)
    requires o.arrival == b.clock && i < |levels|
    requires HasPrice(Ladder(b, side), price) || LevelCount(b) < lim.levels
    requires Enqueue(side, Ladder(b, side), price, o) == levels[i := Level(price, queue + [o])]
    ensures var joined := levels[i := Level(price, queue + [o])];
      Rest(lim, b, o.id, side, price, o.qty, trades) ==
      Outcome(WithLadder(WithLadder(b, side, levels), side, joined).(clock := b.clock + 1), trades, true)
  {
  }

  function Add(lim: Limits, b: Book, id: OrderId, side: Side, price: Price, qty: Quantity): Outcome {
    if id in OrderIds(b) || |OrderIds(b)| >= lim.orders then Outcome(b, [], false)
    else if Crosses(b, side, price) then
      var s := Sweep(side, price, qty, Ladder(b, Opposite(side)));
      var matched := WithLadder(b, Opposite(side), s.rest);
      if s.left == 0 then Outcome(matched, s.trades, true)
      else Rest(lim, matched, id, side, price, s.left, s.trades)
    else Rest(lim, b, id, side, price, qty, [])
  }

  function SideOf(b: Book, id: OrderId): Side { if id in Ids(b.bids) then Buy else Sell }

  function Cancel(b: Book, id: OrderId): Outcome {
    if id !in OrderIds(b) then Outcome(b, [], false)
    else Outcome(WithLadder(b, SideOf(b, id), Without(Ladder(b, SideOf(b, id)), id)), [], true)
  }

  function Modify(lim: Limits, b: Book, id: OrderId, price: Price, qty: Quantity): Outcome {
    if id !in OrderIds(b) then Outcome(b, [], false)
    else Add(lim, Cancel(b, id).book, id, SideOf(b, id), price, qty)
  }

  // ---------- the invariant ----------

  ghost predicate Once(ids: multiset<OrderId>) { forall id :: ids[id] <= 1 }

  ghost predicate Proper(lim: Limits, b: Book) {
    && WellFormed(Buy, b.bids, b.clock) && WellFormed(Sell, b.asks, b.clock)
    && Once(OrderIds(b)) && |OrderIds(b)| <= lim.orders && LevelCount(b) <= lim.levels
  }

  lemma {:induction false} Fewer(a: multiset<OrderId>, b: multiset<OrderId>)
    requires a <= b
    ensures |a| <= |b| && (Once(b) ==> Once(a))
  {
    assert b == a + (b - a);
  }

  /** What the matching phase leaves of the opposite ladder, whether it is entered or not. */
  function Matched(b: Book, side: Side, price: Price, qty: Quantity): Swept<Level> {
    if Crosses(b, side, price) then Sweep(side, price, qty, Ladder(b, Opposite(side)))
    else Swept([], qty, Ladder(b, Opposite(side)))
  }

  function AfterMatching(b: Book, side: Side, price: Price, qty: Quantity): (r: Book)
    ensures r.clock == b.clock
  {
    WithLadder(b, Opposite(side), Matched(b, side, price, qty).rest)
  }

  /** The two phases of adding an order that has a fresh identity and a slot in the pool. */
  lemma {:induction false} AddPhases(lim: Limits, b: Book, id: OrderId, side: Side, price: Price, qty: Quantity)
    requires id !in OrderIds(b) && |OrderIds(b)| < lim.orders
    ensures var m, b' := Matched(b, side, price, qty), AfterMatching(b, side, price, qty);
      Add(lim, b, id, side, price, qty) ==
        if Crosses(b, side, price) && m.left == 0 then Outcome(b', m.trades, true)
        else Rest(lim, b', id, side, price, m.left, m.trades)
  {
    assert !Crosses(b, side, price) ==> AfterMatching(b, side, price, qty) == b;
  }

  lemma {:induction false} MatchedProper(lim: Limits, b: Book, side: Side, price: Price, qty: Quantity)
    requires Proper(lim, b)
    ensures var b' := AfterMatching(b, side, price, qty);
      Proper(lim, b') && OrderIds(b') <= OrderIds(b) && |OrderIds(b')| <= |OrderIds(b)|
  {
    if Crosses(b, side, price) {
      SweepKeeps(side, price, qty, Ladder(b, Opposite(side)), b.clock);
      SweepIds(side, price, qty, Ladder(b, Opposite(side)));
    }
    Fewer(OrderIds(AfterMatching(b, side, price, qty)), OrderIds(b));
  }

  lemma {:induction false} EnqueueWellFormed(side: Side, levels: seq<Level>, price: Price, o: Resting)
    requires WellFormed(side, levels, o.arrival)
    ensures WellFormed(side, Enqueue(side, levels, price, o), o.arrival + 1)
  {
    EnqueueSorted(side, levels, price, o);
    EnqueueTimely(side, levels, price, o);
  }

  lemma {:induction false} OnceMore(ids: multiset<OrderId>, id: OrderId)
    requires Once(ids) && id !in ids
    ensures Once(ids + multiset{id}) && |ids + multiset{id}| == |ids| + 1
  {
  }

  lemma {:induction false} RestIds(lim: Limits, b: Book, id: OrderId, side: Side, price: Price, qty: Quantity,
      trades: seq<Trade>)
    ensures var r := Rest(lim, b, id, side, price, qty, trades);
      OrderIds(r.book) == OrderIds(b) + if r.ok then multiset{id} else multiset{}
  {
    EnqueueIds(side, Ladder(b, side), price, Resting(id, qty, b.clock));
  }

  lemma {:induction false} MatchedQuoted(b: Book, side: Side, price: Price, qty: Quantity)
    requires Quoted(b.bids) && Quoted(b.asks)
    ensures Quoted(AfterMatching(b, side, price, qty).bids) && Quoted(AfterMatching(b, side, price, qty).asks)
  {
    SweepQuoted(side, price, qty, Ladder(b, Opposite(side)));
  }

  lemma {:induction false} RestProper(lim: Limits, b: Book, id: OrderId, side: Side, price: Price, qty: Quantity,
      trades: seq<Trade>)
    requires Proper(lim, b) && id !in OrderIds(b) && |OrderIds(b)| < lim.orders
    ensures Proper(lim, Rest(lim, b, id, side, price, qty, trades).book)
  {
    var o := Resting(id, qty, b.clock);
    if Rest(lim, b, id, side, price, qty, trades).ok {
      RestIds(lim, b, id, side, price, qty, trades);
      OnceMore(OrderIds(b), id);
      EnqueueWellFormed(side, Ladder(b, side), price, o);
      EnqueueTotals(side, Ladder(b, side), price, o);
      TimelyRelaxed(Ladder(b, Opposite(side)), b.clock, b.clock + 1);
    }
  }

  lemma {:induction false} AddProper(lim: Limits, b: Book, id: OrderId, side: Side, price: Price, qty: Quantity)
    requires Proper(lim, b)
    ensures Proper(lim, Add(lim, b, id, side, price, qty).book)
  {
    if id !in OrderIds(b) && |OrderIds(b)| < lim.orders {
      var m, b' := Matched(b, side, price, qty), AfterMatching(b, side, price, qty);
      AddPhases(lim, b, id, side, price, qty);
      MatchedProper(lim, b, side, price, qty);
      assert id !in OrderIds(b');
      RestProper(lim, b', id, side, price, m.left, m.trades);
    }
  }

  lemma {:induction false} WithoutWellFormed(side: Side, levels: seq<Level>, id: OrderId, clock: nat)
    requires WellFormed(side, levels, clock) && id in Ids(levels)
    ensures WellFormed(side, Without(levels, id), clock) && |Without(levels, id)| <= |levels|
  {
    WithoutSorted(side, levels, id);
    WithoutTimely(levels, id, clock);
    WithoutTotals(levels, id);
  }

  lemma {:induction false} CancelIds(b: Book, id: OrderId)
    ensures OrderIds(Cancel(b, id).book) == OrderIds(b) - multiset{id}
  {
    if id in OrderIds(b) {
      var own, other := Ladder(b, SideOf(b, id)), Ladder(b, Opposite(SideOf(b, id)));
      WithoutIds(own, id);
      OneLess(Ids(own), Ids(other), id);
    }
  }

  lemma {:induction false} OneLess(a: multiset<OrderId>, b: multiset<OrderId>, id: OrderId)
    requires id in a
    ensures (a - multiset{id}) + b == (a + b) - multiset{id} && b + (a - multiset{id}) == (b + a) - multiset{id}
    ensures a + b == b + a && |(a + b) - multiset{id}| == |a + b| - 1
  {
    assert a + b == ((a + b) - multiset{id}) + multiset{id};
  }

  lemma {:induction false} CancelOnce(b: Book, id: OrderId)
    requires Once(OrderIds(b))
    ensures var ids := OrderIds(Cancel(b, id).book);
      ids == OrderIds(b) - multiset{id} && id !in ids && Once(ids) && |ids| <= |OrderIds(b)|
  {
    CancelIds(b, id);
    Fewer(OrderIds(b) - multiset{id}, OrderIds(b));
  }

  lemma {:induction false} CancelProper(lim: Limits, b: Book, id: OrderId)
    requires Proper(lim, b)
    ensures var c := Cancel(b, id).book;
      Proper(lim, c) && OrderIds(c) == OrderIds(b) - multiset{id} && id !in OrderIds(c)
  {
    CancelOnce(b, id);
    if id in OrderIds(b) {
      WithoutWellFormed(SideOf(b, id), Ladder(b, SideOf(b, id)), id, b.clock);
    }
  }

  lemma {:induction false} ModifyProper(lim: Limits, b: Book, id: OrderId, price: Price, qty: Quantity)
    requires Proper(lim, b)
    ensures Proper(lim, Modify(lim, b, id, price, qty).book)
  {
    CancelProper(lim, b, id);
    AddProper(lim, Cancel(b, id).book, id, SideOf(b, id), price, qty);
  }

  // ---------- all or nothing ----------

  /** When an order is accepted, in terms of the book before the call. */
  predicate Accepts(lim: Limits, b: Book, id: OrderId, side: Side, price: Price) {
    && id !in OrderIds(b) && |OrderIds(b)| < lim.orders
    && (Crosses(b, side, price) || HasPrice(Ladder(b, side), price) || LevelCount(b) < lim.levels)
  }

  /** A match that leaves a remainder has emptied a level. */
  lemma {:induction false} MatchingFreesLevel(lim: Limits, b: Book, side: Side, price: Price, qty: Quantity)
    requires Proper(lim, b) && Crosses(b, side, price) && Matched(b, side, price, qty).left > 0
    ensures LevelCount(AfterMatching(b, side, price, qty)) < LevelCount(b) <= lim.levels
  {
    SweepKeeps(side, price, qty, Ladder(b, Opposite(side)), b.clock);
  }

  /** An order that is not accepted leaves no trace, so the level for a remainder is never missing. */
  lemma {:induction false} AllOrNothing(lim: Limits, b: Book, id: OrderId, side: Side, price: Price, qty: Quantity)
    requires Proper(lim, b)
    ensures var r := Add(lim, b, id, side, price, qty);
      r.ok == Accepts(lim, b, id, side, price) && (!r.ok ==> r == Outcome(b, [], false))
  {
    if id !in OrderIds(b) && |OrderIds(b)| < lim.orders {
      AddPhases(lim, b, id, side, price, qty);
      if Crosses(b, side, price) {
        if Matched(b, side, price, qty).left > 0 {
          MatchingFreesLevel(lim, b, side, price, qty);
        }
      } else {
        assert AfterMatching(b, side, price, qty) == b;
      }
    }
  }

  // ---------- bids and asks do not cross ----------

  predicate Uncrossed(b: Book) {
    b.bids == [] || b.asks == [] || b.bids[0].price < b.asks[0].price
  }

  /** The best opposite price counts as "no price" and is not matched, though the order would accept it. */
  predicate Overlooks(b: Book, side: Side, price: Price) {
    var levels := Ladder(b, Opposite(side));
    levels != [] && levels[0].price == INVALID_PRICE && Acceptable(side, price, INVALID_PRICE)
  }

  lemma {:induction false} UncrossedEverywhere(lim: Limits, b: Book, i: nat, j: nat)
    requires Proper(lim, b) && Uncrossed(b) && i < |b.bids| && j < |b.asks|
    ensures b.bids[i].price < b.asks[j].price
  {
    SortedIndexed(Buy, b.bids);
    SortedIndexed(Sell, b.asks);
    assert i > 0 ==> Less(Buy, b.bids[0].price, b.bids[i].price);
    assert j > 0 ==> Less(Sell, b.asks[0].price, b.asks[j].price);
  }

  predicate Apart(side: Side, own: seq<Level>, other: seq<Level>) {
    own == [] || other == [] || !Acceptable(side, own[0].price, other[0].price)
  }

  lemma {:induction false} ApartBothWays(b: Book, side: Side)
    ensures Uncrossed(b) <==> Apart(side, Ladder(b, side), Ladder(b, Opposite(side)))
  {
  }

  lemma {:induction false} EnqueueApart(side: Side, own: seq<Level>, other: seq<Level>, price: Price, o: Resting)
    requires Sorted(side, own) && Apart(side, own, other)
    ensures Apart(side, Enqueue(side, own, price, o), other) <==>
      other == [] || !Acceptable(side, price, other[0].price)
  {
    EnqueueSorted(side, own, price, o);
  }

  /** After matching, the ladders are still apart, and a remainder accepts nothing that is left unless it
      overlooks it. */
  lemma {:induction false} MatchedApart(b: Book, side: Side, price: Price, qty: Quantity)
    requires WellFormed(Opposite(side), Ladder(b, Opposite(side)), b.clock)
    requires Apart(side, Ladder(b, side), Ladder(b, Opposite(side)))
    ensures var m := Matched(b, side, price, qty);
      && Apart(side, Ladder(b, side), m.rest)
      && (!Crosses(b, side, price) || m.left > 0 ==>
            (m.rest == [] || !Acceptable(side, price, m.rest[0].price) <==> !Overlooks(b, side, price)))
  {
    if Crosses(b, side, price) {
      SweepKeeps(side, price, qty, Ladder(b, Opposite(side)), b.clock);
      SweepConserves(side, price, qty, Ladder(b, Opposite(side)));
    }
  }

  /** Adding to an uncrossed book crosses it exactly when the order is accepted and overlooks the best price. */
  lemma {:induction false} AddUncrossed(lim: Limits, b: Book, id: OrderId, side: Side, price: Price, qty: Quantity)
    requires Proper(lim, b) && Uncrossed(b)
    ensures Uncrossed(Add(lim, b, id, side, price, qty).book) <==>
            !(Accepts(lim, b, id, side, price) && Overlooks(b, side, price))
  {
    AllOrNothing(lim, b, id, side, price, qty);
    if Accepts(lim, b, id, side, price) {
      var m := Matched(b, side, price, qty);
      AddPhases(lim, b, id, side, price, qty);
      ApartBothWays(b, side);
      MatchedApart(b, side, price, qty);
      EnqueueApart(side, Ladder(b, side), m.rest, price, Resting(id, m.left, b.clock));
      ApartBothWays(Add(lim, b, id, side, price, qty).book, side);
    }
  }

  lemma {:induction false} CancelUncrossed(lim: Limits, b: Book, id: OrderId)
    requires Proper(lim, b) && Uncrossed(b)
    ensures Uncrossed(Cancel(b, id).book)
  {
    if id in OrderIds(b) {
      WithoutSorted(SideOf(b, id), Ladder(b, SideOf(b, id)), id);
    }
  }

  // ---------- quantity ----------

  /** The quantity of a resting order, or 0. */
  function RestingQuantity(b: Book, id: OrderId): nat {
    if id !in OrderIds(b) then 0
    else Find(FindLevel(Ladder(b, SideOf(b, id)), id).queue, id).qty
  }

  lemma {:induction false} RestConserves(lim: Limits, b: Book, id: OrderId, side: Side, price: Price, qty: Quantity,
      trades: seq<Trade>)
    requires Sorted(side, Ladder(b, side))
    ensures var r := Rest(lim, b, id, side, price, qty, trades);
      Volume(r.book) == Volume(b) + (if r.ok then qty else 0) && r.trades == trades
  {
    EnqueueTotals(side, Ladder(b, side), price, Resting(id, qty, b.clock));
  }

  /** What an accepted order brings in comes to rest or trades, and what trades leaves the other side too. */
  lemma {:induction false} AddConserves(lim: Limits, b: Book, id: OrderId, side: Side, price: Price, qty: Quantity)
    requires Proper(lim, b)
    ensures var r := Add(lim, b, id, side, price, qty);
      Volume(r.book) + 2 * Traded(r.trades) == Volume(b) + if r.ok then qty else 0
  {
    AllOrNothing(lim, b, id, side, price, qty);
    if Accepts(lim, b, id, side, price) {
      var m := Matched(b, side, price, qty);
      AddPhases(lim, b, id, side, price, qty);
      SweepConserves(side, price, qty, Ladder(b, Opposite(side)));
      RestConserves(lim, AfterMatching(b, side, price, qty), id, side, price, m.left, m.trades);
    }
  }

  lemma {:induction false} CancelConserves(b: Book, id: OrderId)
    ensures Volume(Cancel(b, id).book) + RestingQuantity(b, id) == Volume(b)
  {
    if id in OrderIds(b) {
      WithoutTotals(Ladder(b, SideOf(b, id)), id);
    }
  }

  // ---------- modifying ----------

  /** The order shares its level with others. */
  predicate Shares(b: Book, id: OrderId)
    requires id in OrderIds(b)
  {
    |FindLevel(Ladder(b, SideOf(b, id)), id).queue| > 1
  }

  /** The book after a cancellation has a slot for the order, and its level too unless others stand there. */
  lemma {:induction false} CancelRoom(lim: Limits, b: Book, id: OrderId, price: Price)
    requires Proper(lim, b) && id in OrderIds(b)
    ensures var side, c := SideOf(b, id), Cancel(b, id).book;
      && |OrderIds(c)| < lim.orders && (Crosses(c, side, price) <==> Crosses(b, side, price))
      && LevelCount(c) == LevelCount(b) - (if Shares(b, id) then 0 else 1)
      && (Shares(b, id) ==> (HasPrice(Ladder(c, side), price) <==> HasPrice(Ladder(b, side), price)))
  {
    hide HasPrice, Without, FindLevel, WellFormed, Once, Ids;
    var levels := Ladder(b, SideOf(b, id));
    CancelOnce(b, id);
    SideHolds(b, id);
    WithoutTotals(levels, id);
    LevelNotEmpty(levels, id);
    if Shares(b, id) {
      WithoutPrices(levels, id, price);
    }
    OneLess(OrderIds(b), multiset{}, id);
    assert OrderIds(b) + multiset{} == OrderIds(b);
  }

  lemma {:induction false} SideHolds(b: Book, id: OrderId)
    requires id in OrderIds(b)
    ensures id in Ids(Ladder(b, SideOf(b, id)))
  {
  }

  /** Modifying a live order fails exactly when the level pool is exhausted, the old level still has other orders,
      and the new price neither matches nor has a level; what is left is then the cancellation. */
  lemma {:induction false} ModifyFails(lim: Limits, b: Book, id: OrderId, price: Price, qty: Quantity)
    requires Proper(lim, b) && id in OrderIds(b)
    ensures var r, side := Modify(lim, b, id, price, qty), SideOf(b, id);
      && (!r.ok <==> LevelCount(b) == lim.levels && Shares(b, id) && !Crosses(b, side, price)
                     && !HasPrice(Ladder(b, side), price))
      && (!r.ok ==> r == Cancel(b, id).(ok := false))
  {
    hide HasPrice, Crosses, Shares, WellFormed, Once, Ids, OrderIds, Add, Ladder, SideOf;
    CancelProper(lim, b, id);
    CancelRoom(lim, b, id, price);
    AllOrNothing(lim, Cancel(b, id).book, id, SideOf(b, id), price, qty);
  }

  lemma {:induction false} LevelNotEmpty(levels: seq<Level>, id: OrderId)
    requires id in Ids(levels)
    ensures FindLevel(levels, id).queue != []
  {
  }

  // ---------- best execution ----------

  /** The trades of an order cost no more than any other way of taking the same quantity from the opposite offers,
      none of them is beyond the limit, and each is at a price no better than the one before. */
  lemma {:induction false} BestExecution(lim: Limits, b: Book, side: Side, price: Price, qty: Quantity, a: seq<nat>)
    requires Proper(lim, b) && Takes(Flatten(Ladder(b, Opposite(side))), a)
    requires Amount(a) == Traded(Matched(b, side, price, qty).trades)
    ensures var trades := Matched(b, side, price, qty).trades;
      && Notional(side, trades) <= Cost(side, Flatten(Ladder(b, Opposite(side))), a)
      && Notional(side, trades) <= Along(side, price) * Traded(trades)
      && forall i :: 0 <= i < |trades| ==>
        Acceptable(side, price, trades[i].price) &&
          (i > 0 ==> !Less(Opposite(side), trades[i].price, trades[i - 1].price))
  {
    var levels := Ladder(b, Opposite(side));
    var offers := Flatten(levels);
    FlattenByPrice(side, levels);
    if Crosses(b, side, price) {
      SweepIsGreedy(side, price, qty, levels);
      SweepOptimal(side, price, qty, offers, a);
      SweepAscends(side, price, qty, offers, Along(side, levels[0].price));
      AscendingIndexed(side, Along(side, levels[0].price), price, Matched(b, side, price, qty).trades);
    } else {
      NothingTaken(side, offers, a);
    }
  }

  lemma {:induction false} NothingTaken(side: Side, offers: seq<Offer>, a: seq<nat>)
    requires Takes(offers, a) && Amount(a) == 0
    ensures Cost(side, offers, a) == 0
  {
    if a != [] {
      NothingTaken(side, offers[1..], a[1..]);
    }
  }

  lemma {:induction false} AscendingIndexed(side: Side, p: int, limit: Price, trades: seq<Trade>)
    requires Ascending(side, p, limit, trades)
    ensures forall i :: 0 <= i < |trades| ==>
      Acceptable(side, limit, trades[i].price) &&
        (i > 0 ==> !Less(Opposite(side), trades[i].price, trades[i - 1].price))
    decreases trades
  {
    if trades != [] {
      AscendingIndexed(side, Along(side, trades[0].price), limit, trades[1..]);
    }
  }

  // ---------- priority ----------

  /** Something of the order is left to rest. */
  predicate Remains(b: Book, side: Side, price: Price, qty: Quantity) {
    Crosses(b, side, price) ==> Matched(b, side, price, qty).left > 0
  }

  /** What is left of an accepted order rests behind every offer of its side that is not worse and before every
      worse one. */
  lemma {:induction false} AddPriority(lim: Limits, b: Book, id: OrderId, side: Side, price: Price, qty: Quantity)
      returns (a: seq<Offer>, z: seq<Offer>)
    requires Proper(lim, b) && Accepts(lim, b, id, side, price) && Remains(b, side, price, qty)
    ensures var o := Offer(price, Resting(id, Matched(b, side, price, qty).left, b.clock));
      && Flatten(Ladder(b, side)) == a + z
      && Flatten(Ladder(Add(lim, b, id, side, price, qty).book, side)) == a + [o] + z
    ensures forall x :: x in a ==> !Less(side, price, x.price)
    ensures forall x :: x in z ==> Less(side, price, x.price)
  {
    AddPhases(lim, b, id, side, price, qty);
    AllOrNothing(lim, b, id, side, price, qty);
    a, z := EnqueuePriority(side, Ladder(b, side), price, Resting(id, Matched(b, side, price, qty).left, b.clock));
  }

  /** A modified order loses its place, whatever was modified: it leaves the queue where it stood and comes last
      among the offers that are not worse than its new price. */
  lemma {:induction false} ModifyPriority(lim: Limits, b: Book, id: OrderId, price: Price, qty: Quantity)
      returns (p: seq<Offer>, x: Offer, q: seq<Offer>, a: seq<Offer>, z: seq<Offer>)
    requires Proper(lim, b) && id in OrderIds(b)
    requires Modify(lim, b, id, price, qty).ok && Remains(Cancel(b, id).book, SideOf(b, id), price, qty)
    ensures var side, c := SideOf(b, id), Cancel(b, id).book;
      var o := Offer(price, Resting(id, Matched(c, side, price, qty).left, b.clock));
      && Flatten(Ladder(b, side)) == p + [x] + q && x.order.id == id && p + q == a + z
      && Flatten(Ladder(Modify(lim, b, id, price, qty).book, side)) == a + [o] + z
    ensures forall y :: y in a ==> !Less(SideOf(b, id), price, y.price)
    ensures forall y :: y in z ==> Less(SideOf(b, id), price, y.price)
  {
    var side, c := SideOf(b, id), Cancel(b, id).book;
    CancelProper(lim, b, id);
    AllOrNothing(lim, c, id, side, price, qty);
    p, x, q := WithoutPriority(Ladder(b, side), id);
    a, z := AddPriority(lim, c, id, side, price, qty);
  }
}
