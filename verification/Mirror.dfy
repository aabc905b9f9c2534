/** Buying and selling are mirror images: negating every price exchanges the two sides of the book. */
module Mirror {
  import opened Types
  import opened Sweeps
  import opened Ladders
  import opened BookSpec

  /** The smallest 64-bit integer has no negation; it is also the invalid price. */
  function Negate(p: Price): (r: Price)
    ensures p != INVALID_PRICE ==> r == -p && r != INVALID_PRICE
  {
    if p == INVALID_PRICE then p else -p
  }

  function Levels(levels: seq<Level>): seq<Level> {
    if levels == [] then [] else [Level(Negate(levels[0].price), levels[0].queue)] + Levels(levels[1..])
  }

  function Trades(trades: seq<Trade>): seq<Trade> {
    if trades == [] then []
    else [Trade(Negate(trades[0].price), trades[0].qty, Opposite(trades[0].aggressor))] + Trades(trades[1..])
  }

  function Flip(b: Book): Book { Book(Levels(b.asks), Levels(b.bids), b.clock) }

  function FlipOutcome(r: Outcome): Outcome { Outcome(Flip(r.book), Trades(r.trades), r.ok) }

  lemma {:induction false} TradesAppend(a: seq<Trade>, b: seq<Trade>)
    ensures Trades(a + b) == Trades(a) + Trades(b)
  {
    if a == [] {
      assert a + b == b;
    } else {
      assert (a + b)[1..] == a[1..] + b;
      TradesAppend(a[1..], b);
    }
  }

  lemma {:induction false} LevelsFront(l: Level, levels: seq<Level>)
    ensures Levels([l] + levels) == [Level(Negate(l.price), l.queue)] + Levels(levels)
  {
    assert ([l] + levels)[1..] == levels;
  }

  lemma {:induction false} FillFlips(side: Side, price: Price, qty: Quantity, queue: seq<Resting>)
    ensures var f, g := FillLevel(side, price, qty, queue), FillLevel(Opposite(side), Negate(price), qty, queue);
      g.trades == Trades(f.trades) && g.left == f.left && g.rest == f.rest
  {
    if qty > 0 && queue != [] {
      var m := Min(qty, queue[0].qty);
      if m == queue[0].qty {
        FillFlips(side, price, qty - m, queue[1..]);
        TradesAppend([Trade(price, m, side)], FillLevel(side, price, qty - m, queue[1..]).trades);
      }
    }
  }

  lemma {:induction false} SweepFlips(side: Side, limit: Price, qty: Quantity, levels: seq<Level>)
    requires limit != INVALID_PRICE && Quoted(levels)
    ensures var s, t := Sweep(side, limit, qty, levels), Sweep(Opposite(side), Negate(limit), qty, Levels(levels));
      t.trades == Trades(s.trades) && t.left == s.left && t.rest == Levels(s.rest)
    decreases levels
  {
    if qty > 0 && levels != [] && Acceptable(side, limit, levels[0].price) {
      var f := FillLevel(side, levels[0].price, qty, levels[0].queue);
      FillFlips(side, levels[0].price, qty, levels[0].queue);
      if f.rest == [] {
        SweepFlips(side, limit, f.left, levels[1..]);
        TradesAppend(f.trades, Sweep(side, limit, f.left, levels[1..]).trades);
      } else {
        LevelsFront(Level(levels[0].price, f.rest), levels[1..]);
      }
    }
  }

  lemma {:induction false} EnqueueFlips(side: Side, levels: seq<Level>, price: Price, o: Resting)
    requires price != INVALID_PRICE && Quoted(levels)
    ensures Enqueue(Opposite(side), Levels(levels), Negate(price), o) == Levels(Enqueue(side, levels, price, o))
    decreases levels
  {
    if levels == [] || Less(side, price, levels[0].price) {
      LevelsFront(Level(price, [o]), levels);
    } else if levels[0].price == price {
      LevelsFront(Level(price, levels[0].queue + [o]), levels[1..]);
    } else {
      EnqueueFlips(side, levels[1..], price, o);
      LevelsFront(levels[0], Enqueue(side, levels[1..], price, o));
    }
  }

  lemma {:induction false} ViewFlips(levels: seq<Level>, price: Price)
    requires price != INVALID_PRICE && Quoted(levels)
    ensures Ids(Levels(levels)) == Ids(levels) && |Levels(levels)| == |levels|
    ensures HasPrice(Levels(levels), Negate(price)) <==> HasPrice(levels, price)
  {
    if levels != [] {
      ViewFlips(levels[1..], price);
    }
  }

  lemma {:induction false} RestFlips(lim: Limits, b: Book, id: OrderId, side: Side, price: Price, qty: Quantity,
      trades: seq<Trade>)
    requires price != INVALID_PRICE && Quoted(b.bids) && Quoted(b.asks)
    ensures Rest(lim, Flip(b), id, Opposite(side), Negate(price), qty, Trades(trades)) ==
      FlipOutcome(Rest(lim, b, id, side, price, qty, trades))
  {
    ViewFlips(b.bids, price);
    ViewFlips(b.asks, price);
    EnqueueFlips(side, Ladder(b, side), price, Resting(id, qty, b.clock));
  }

  lemma {:induction false} MatchedFlips(b: Book, side: Side, price: Price, qty: Quantity)
    requires price != INVALID_PRICE && Quoted(b.bids) && Quoted(b.asks)
    ensures Crosses(Flip(b), Opposite(side), Negate(price)) <==> Crosses(b, side, price)
    ensures var m, n := Matched(b, side, price, qty), Matched(Flip(b), Opposite(side), Negate(price), qty);
      && n.trades == Trades(m.trades) && n.left == m.left && n.rest == Levels(m.rest) && Quoted(m.rest)
      && AfterMatching(Flip(b), Opposite(side), Negate(price), qty) == Flip(AfterMatching(b, side, price, qty))
  {
    SweepFlips(side, price, qty, Ladder(b, Opposite(side)));
    SweepQuoted(side, price, qty, Ladder(b, Opposite(side)));
  }

  /** Mirroring does not change which orders rest. */
  lemma {:induction false} IdsFlip(b: Book)
    requires Quoted(b.bids) && Quoted(b.asks)
    ensures OrderIds(Flip(b)) == OrderIds(b)
  {
    ViewFlips(b.bids, 0);
    ViewFlips(b.asks, 0);
  }

  /** An order with a known identity or without a slot: both books stay as they are. */
  lemma {:induction false} RejectedFlips(lim: Limits, b: Book, id: OrderId, side: Side, price: Price, qty: Quantity)
    requires Quoted(b.bids) && Quoted(b.asks)
    requires id in OrderIds(b) || |OrderIds(b)| >= lim.orders
    ensures Add(lim, Flip(b), id, Opposite(side), Negate(price), qty) == FlipOutcome(Add(lim, b, id, side, price, qty))
  {
    hide Crosses, Sweep, Rest, Ids, OrderIds, Flip, Quoted;
    IdsFlip(b);
    assert Trades([]) == [];
  }

  /** An order that is matched to the end leaves mirrored books, and one with a remainder comes to rest in them. */
  lemma {:induction false} PhasesFlip(lim: Limits, b: Book, id: OrderId, side: Side, price: Price, qty: Quantity)
    requires price != INVALID_PRICE && Quoted(b.bids) && Quoted(b.asks)
    requires id !in OrderIds(b) && |OrderIds(b)| < lim.orders
    ensures Add(lim, Flip(b), id, Opposite(side), Negate(price), qty) == FlipOutcome(Add(lim, b, id, side, price, qty))
  {
    hide Crosses, Sweep, Rest, Ids, OrderIds, Flip, Add, Trades, Negate, Matched, AfterMatching;
    var m, b' := Matched(b, side, price, qty), AfterMatching(b, side, price, qty);
    IdsFlip(b);
    AddPhases(lim, b, id, side, price, qty);
    AddPhases(lim, Flip(b), id, Opposite(side), Negate(price), qty);
    MatchedFlips(b, side, price, qty);
    MatchedQuoted(b, side, price, qty);
    RestFlips(lim, b', id, side, price, m.left, m.trades);
  }

  /** Adding to the mirrored book is the mirror image of adding: matching a buy order and matching a sell order
      are the same algorithm. */
  lemma {:induction false} AddFlips(lim: Limits, b: Book, id: OrderId, side: Side, price: Price, qty: Quantity)
    requires price != INVALID_PRICE && Quoted(b.bids) && Quoted(b.asks)
    ensures Add(lim, Flip(b), id, Opposite(side), Negate(price), qty) == FlipOutcome(Add(lim, b, id, side, price, qty))
  {
    hide *;
    if id in OrderIds(b) || |OrderIds(b)| >= lim.orders {
      RejectedFlips(lim, b, id, side, price, qty);
    } else {
      PhasesFlip(lim, b, id, side, price, qty);
    }
  }
}
