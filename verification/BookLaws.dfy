/** What adding, cancelling and modifying do to the offers of the two sides, told without the loops that do it. The
    offers of a side are all its resting orders, by price and then by place in the queue. */
module BookLaws {
  import opened Sequences
  import opened Types
  import opened Sweeps
  import opened Ladders
  import opened LadderSteps
  import opened BookSpec

  function OffersOn(b: Book, side: Side): seq<Offer> { Flatten(Ladder(b, side)) }

  // ---------- filling an order from a sequence of offers ----------

  /** The quantity offered at acceptable prices. */
  function Available(side: Side, limit: Price, offers: seq<Offer>): nat {
    if offers == [] then 0
    else
      (if Acceptable(side, limit, offers[0].price) then offers[0].order.qty else 0)
      + Available(side, limit, offers[1..])
  }

  /** Trade k is with offer k, at its price and within the limit; every trade but the last takes the whole offer. */
  ghost predicate InTurn(side: Side, limit: Price, offers: seq<Offer>, trades: seq<Trade>) {
    && |trades| <= |offers|
    && (forall k :: 0 <= k < |trades| ==>
          && trades[k].price == offers[k].price && trades[k].aggressor == side
          && Acceptable(side, limit, offers[k].price))
    && (forall k :: 0 <= k < |trades| - 1 ==> trades[k].qty == offers[k].order.qty)
  }

  /** What rests are the offers without those that were taken whole, the last one less what was taken of it. */
  ghost predicate Leaves(offers: seq<Offer>, trades: seq<Trade>, rest: seq<Offer>)
    requires |trades| <= |offers|
  {
    if trades == [] then rest == offers
    else
      var n := |trades|;
      var last, taken := offers[n - 1], trades[n - 1].qty;
      && taken <= last.order.qty
      && rest == (if taken == last.order.qty then [] else [Reduced(last, taken)]) + offers[n..]
  }

  /** No trade is made once the order is filled, and none is missing while an acceptable offer is there. */
  ghost predicate Exhausts(side: Side, limit: Price, qty: Quantity, offers: seq<Offer>, trades: seq<Trade>,
      rest: seq<Offer>)
  {
    && Traded(trades) == Min(qty, Available(side, limit, offers))
    && (trades != [] ==> Traded(trades[..|trades| - 1]) < qty)
    && (Traded(trades) < qty && rest != [] ==> !Acceptable(side, limit, rest[0].price))
  }

  ghost predicate Fills(side: Side, limit: Price, qty: Quantity, offers: seq<Offer>, trades: seq<Trade>,
      rest: seq<Offer>)
  {
    && InTurn(side, limit, offers, trades) && Leaves(offers, trades, rest)
    && Exhausts(side, limit, qty, offers, trades, rest)
  }

  lemma {:induction false} NothingAvailable(side: Side, limit: Price, p: int, offers: seq<Offer>)
    requires Dearer(side, p, offers) && p > Along(side, limit)
    ensures Available(side, limit, offers) == 0
    decreases offers
  {
    if offers != [] {
      NothingAvailable(side, limit, Along(side, offers[0].price), offers[1..]);
    }
  }

  lemma {:induction false} ByPriceLater(side: Side, offers: seq<Offer>)
    requires ByPrice(side, offers) && offers != []
    ensures ByPrice(side, offers[1..])
    ensures forall limit :: !Acceptable(side, limit, offers[0].price) ==> Available(side, limit, offers) == 0
  {
    assert Dearer(side, Along(side, offers[0].price), offers[1..]);
    forall limit | !Acceptable(side, limit, offers[0].price) ensures Available(side, limit, offers) == 0 {
      NothingAvailable(side, limit, Along(side, offers[0].price), offers);
    }
  }

  lemma {:induction false} TradedFront(t: Trade, more: seq<Trade>)
    ensures Traded([t] + more) == t.qty + Traded(more)
    ensures more != [] ==> Traded(([t] + more)[..|more|]) == t.qty + Traded(more[..|more| - 1])
  {
    assert ([t] + more)[1..] == more;
    if more != [] {
      assert ([t] + more)[..|more|] == [t] + more[..|more| - 1];
      assert ([t] + more[..|more| - 1])[1..] == more[..|more| - 1];
    }
  }

  /** A whole offer is taken, then the rest of the order is filled from the others. */
  lemma {:induction false} ExhaustsFront(side: Side, limit: Price, qty: Quantity, offers: seq<Offer>,
      more: seq<Trade>, rest: seq<Offer>)
    requires offers != [] && 0 < qty && offers[0].order.qty <= qty && Acceptable(side, limit, offers[0].price)
    requires Exhausts(side, limit, qty - offers[0].order.qty, offers[1..], more, rest)
    ensures Exhausts(side, limit, qty, offers, [Trade(offers[0].price, offers[0].order.qty, side)] + more, rest)
  {
    var t := Trade(offers[0].price, offers[0].order.qty, side);
    TradedFront(t, more);
    assert more == [] ==> ([t] + more)[..0] == [];
  }

  lemma {:induction false} ExhaustsPart(side: Side, limit: Price, qty: Quantity, offers: seq<Offer>, rest: seq<Offer>)
    requires offers != [] && 0 < qty < offers[0].order.qty && Acceptable(side, limit, offers[0].price)
    ensures Exhausts(side, limit, qty, offers, [Trade(offers[0].price, qty, side)], rest)
  {
    var t := Trade(offers[0].price, qty, side);
    TradedFront(t, []);
    assert [t] + [] == [t] && [t][..0] == [];
  }

  lemma {:induction false} GreedyExhausts(side: Side, limit: Price, qty: Quantity, offers: seq<Offer>)
    requires ByPrice(side, offers)
    ensures var g := Greedy(side, limit, qty, offers);
      Exhausts(side, limit, qty, offers, g.trades, g.rest) && Traded(g.trades) + g.left == qty
    decreases offers
  {
    hide ByPrice, Acceptable;
    var g := Greedy(side, limit, qty, offers);
    if offers != [] {
      ByPriceLater(side, offers);
      if qty > 0 && Acceptable(side, limit, offers[0].price) {
        hide Exhausts;
        var o := offers[0].order;
        if o.qty <= qty {
          GreedyExhausts(side, limit, qty - o.qty, offers[1..]);
          ExhaustsFront(side, limit, qty, offers, Greedy(side, limit, qty - o.qty, offers[1..]).trades, g.rest);
          TradedFront(Trade(offers[0].price, o.qty, side), Greedy(side, limit, qty - o.qty, offers[1..]).trades);
        } else {
          ExhaustsPart(side, limit, qty, offers, g.rest);
        }
      }
    }
  }

  /** The greedy pass fills the order in this sense. */
  lemma {:induction false} GreedyFills(side: Side, limit: Price, qty: Quantity, offers: seq<Offer>)
    requires ByPrice(side, offers)
    ensures var g := Greedy(side, limit, qty, offers);
      Fills(side, limit, qty, offers, g.trades, g.rest) && Traded(g.trades) + g.left == qty
  {
    hide Greedy, Exhausts, Traded, Acceptable, ByPrice;
    var g := Greedy(side, limit, qty, offers);
    GreedyExhausts(side, limit, qty, offers);
    TradesFollowOffers(side, limit, qty, offers);
    OnlyLastPartial(side, limit, qty, offers);
    var n := |g.trades|;
    if n > 0 && g.trades[n - 1].qty == offers[n - 1].order.qty {
      assert [] + offers[n..] == offers[n..];
    }
  }

  /** The same the other way round: the rest of a filled order is filled from the other offers. */
  lemma {:induction false} FillsLater(side: Side, limit: Price, qty: Quantity, offers: seq<Offer>, trades: seq<Trade>,
      rest: seq<Offer>)
    requires Fills(side, limit, qty, offers, trades, rest) && trades != [] && trades[0].qty == offers[0].order.qty
    ensures offers[0].order.qty <= qty
    ensures Fills(side, limit, qty - offers[0].order.qty, offers[1..], trades[1..], rest)
  {
    var t, more := trades[0], trades[1..];
    assert trades == [t] + more;
    TradedFront(t, more);
    assert InTurn(side, limit, offers[1..], more) by {
      hide Leaves, Exhausts, Acceptable;
      forall k | 0 <= k < |more|
        ensures more[k].price == offers[1..][k].price && more[k].aggressor == side
        ensures Acceptable(side, limit, offers[1..][k].price)
        ensures k < |more| - 1 ==> more[k].qty == offers[1..][k].order.qty
      {
        assert more[k] == trades[k + 1] && offers[1..][k] == offers[k + 1];
      }
    }
    assert Leaves(offers[1..], more, rest) by {
      assert offers[1..][|more|..] == offers[|trades|..];
      assert [] + offers[1..] == offers[1..];
      if more != [] {
        assert offers[1..][|more| - 1] == offers[|trades| - 1] && more[|more| - 1] == trades[|trades| - 1];
      }
    }
  }

  /** There is only one way to fill an order: that of the greedy pass. */
  lemma {:induction false} FillsOnly(side: Side, limit: Price, qty: Quantity, offers: seq<Offer>, trades: seq<Trade>,
      rest: seq<Offer>)
    requires ByPrice(side, offers) && Fills(side, limit, qty, offers, trades, rest)
    ensures var g := Greedy(side, limit, qty, offers); trades == g.trades && rest == g.rest
    decreases offers
  {
    if trades == [] {
      FillsNothing(side, limit, qty, offers, rest);
    } else if trades[0].qty == offers[0].order.qty {
      ByPriceLater(side, offers);
      FillsLater(side, limit, qty, offers, trades, rest);
      FillsOnly(side, limit, qty - offers[0].order.qty, offers[1..], trades[1..], rest);
      FirstTaken(side, limit, qty, offers, trades, rest);
      assert trades == [Trade(offers[0].price, offers[0].order.qty, side)] + trades[1..];
    } else {
      FirstTaken(side, limit, qty, offers, trades, rest);
    }
  }

  lemma {:induction false} FillsNothing(side: Side, limit: Price, qty: Quantity, offers: seq<Offer>, rest: seq<Offer>)
    requires Fills(side, limit, qty, offers, [], rest)
    ensures var g := Greedy(side, limit, qty, offers); g.trades == [] && g.rest == rest
  {
  }

  lemma {:induction false} FirstTaken(side: Side, limit: Price, qty: Quantity, offers: seq<Offer>, trades: seq<Trade>,
      rest: seq<Offer>)
    requires Fills(side, limit, qty, offers, trades, rest) && trades != []
    ensures 0 < qty && Acceptable(side, limit, offers[0].price)
    ensures trades[0] == Trade(offers[0].price, trades[0].qty, side)
    ensures trades[0].qty != offers[0].order.qty ==>
      && qty < offers[0].order.qty && trades == [Trade(offers[0].price, qty, side)]
      && rest == [Reduced(offers[0], qty)] + offers[1..]
  {
    assert trades == [trades[0]] + trades[1..];
    TradedFront(trades[0], trades[1..]);
    if trades[0].qty != offers[0].order.qty {
      assert |trades| == 1 && trades[1..] == [];
      assert rest[0] == Reduced(offers[0], trades[0].qty);
    }
  }

  // ---------- ladders and their offers ----------

  ghost predicate Holds(offers: seq<Offer>, id: OrderId) { exists k :: 0 <= k < |offers| && offers[k].order.id == id }

  lemma {:induction false} OffersIds(levels: seq<Level>, id: OrderId)
    ensures id in Ids(levels) <==> Holds(Flatten(levels), id)
    ensures |Ids(levels)| == |Flatten(levels)|
  {
    if levels != [] {
      var f, more := Offers(levels[0].price, levels[0].queue), Flatten(levels[1..]);
      OffersIds(levels[1..], id);
      OffersOf(levels[0].price, levels[0].queue);
      QueueIdsAt(levels[0].queue, id);
      QueueCount(levels[0].queue);
      HoldsEither(f, more, id);
    }
  }

  lemma {:induction false} QueueCount(queue: seq<Resting>)
    ensures |QueueIds(queue)| == |queue|
  {
    if queue != [] {
      QueueCount(queue[1..]);
    }
  }

  lemma {:induction false} HoldsEither(a: seq<Offer>, b: seq<Offer>, id: OrderId)
    ensures Holds(a + b, id) <==> Holds(a, id) || Holds(b, id)
  {
    if Holds(a, id) {
      var k :| 0 <= k < |a| && a[k].order.id == id;
      assert (a + b)[k].order.id == id;
    }
    if Holds(b, id) {
      var k :| 0 <= k < |b| && b[k].order.id == id;
      assert (a + b)[|a| + k].order.id == id;
    }
    if Holds(a + b, id) {
      var k :| 0 <= k < |a + b| && (a + b)[k].order.id == id;
      assert if k < |a| then a[k].order.id == id else b[k - |a|].order.id == id;
    }
  }

  /** A ladder is given by its offers. */
  lemma {:induction false} SameOffers(side: Side, a: seq<Level>, b: seq<Level>)
    requires Sorted(side, a) && NonEmpty(a) && Sorted(side, b) && NonEmpty(b) && Flatten(a) == Flatten(b)
    ensures a == b
  {
    if a == [] || b == [] {
      FirstOffer(a);
      FirstOffer(b);
    } else {
      FirstOffer(a);
      FirstOffer(b);
      SameQueue(side, a, b);
      SameOffers(side, a[1..], b[1..]);
      assert a == [a[0]] + a[1..] && b == [b[0]] + b[1..];
    }
  }

  lemma {:induction false} FirstOffer(levels: seq<Level>)
    requires NonEmpty(levels)
    ensures levels == [] <==> Flatten(levels) == []
    ensures levels != [] ==> Flatten(levels)[0].price == levels[0].price
  {
  }

  lemma {:induction false} SameQueue(side: Side, a: seq<Level>, b: seq<Level>)
    requires Sorted(side, a) && Sorted(side, b) && a != [] && b != [] && Flatten(a) == Flatten(b)
    requires a[0].price == b[0].price
    ensures a[0] == b[0] && Flatten(a[1..]) == Flatten(b[1..])
  {
    var p, q, r := a[0].price, a[0].queue, b[0].queue;
    var f, g := Offers(p, q), Offers(p, r);
    OffersOf(p, q);
    OffersOf(p, r);
    AllWorse(side, a[1..], p);
    AllWorse(side, b[1..], p);
    Overlap(f, Flatten(a[1..]), g, Flatten(b[1..]));
    Overlap(g, Flatten(b[1..]), f, Flatten(a[1..]));
    forall k | 0 <= k < |q| ensures q[k] == r[k] {
      assert f[k] == g[k];
    }
  }

  /** Two ways of cutting a sequence: the first element behind the shorter part is in the longer one. */
  lemma {:induction false} Overlap<T>(f: seq<T>, x: seq<T>, g: seq<T>, y: seq<T>)
    requires f + x == g + y
    ensures |f| < |g| ==> x != [] && x[0] == g[|f|] && x[0] in x
    ensures |f| == |g| ==> f == g && x == y
  {
    if |f| < |g| {
      assert (f + x)[|f|] == (g + y)[|f|] == g[|f|];
    }
    if |f| == |g| {
      assert (f + x)[..|f|] == f && (g + y)[..|f|] == g;
      assert (f + x)[|f|..] == x && (g + y)[|f|..] == y;
    }
  }

  /** The offer stands behind every offer of its side that is not worse and before every worse one. */
  ghost predicate JoinsAt(side: Side, o: Offer, before: seq<Offer>, after: seq<Offer>, i: nat) {
    && InsertedAt(after, before, i, o)
    && (forall k :: 0 <= k < i ==> !Less(side, o.price, before[k].price))
    && (forall k :: i <= k < |before| ==> Less(side, o.price, before[k].price))
  }

  ghost predicate Joins(side: Side, o: Offer, before: seq<Offer>, after: seq<Offer>) {
    exists i :: JoinsAt(side, o, before, after, i)
  }

  /** How many offers, from the front, are not worse than a price. */
  ghost function Ahead(side: Side, price: Price, offers: seq<Offer>): nat {
    if offers == [] || Less(side, price, offers[0].price) then 0 else 1 + Ahead(side, price, offers[1..])
  }

  lemma {:induction false} JoinsBehind(side: Side, o: Offer, before: seq<Offer>, after: seq<Offer>, i: nat)
    requires JoinsAt(side, o, before, after, i)
    ensures i == Ahead(side, o.price, before)
  {
    AheadIs(side, o.price, before, i);
  }

  lemma {:induction false} AheadIs(side: Side, price: Price, offers: seq<Offer>, i: nat)
    requires i <= |offers|
    requires forall k :: 0 <= k < i ==> !Less(side, price, offers[k].price)
    requires forall k :: i <= k < |offers| ==> Less(side, price, offers[k].price)
    ensures i == Ahead(side, price, offers)
    decreases i
  {
    if i > 0 {
      forall k | 0 <= k < i - 1 ensures !Less(side, price, offers[1..][k].price) {
        assert offers[1..][k] == offers[k + 1];
      }
      AheadIs(side, price, offers[1..], i - 1);
    }
  }

  lemma {:induction false} JoinsOnly(side: Side, o: Offer, before: seq<Offer>, a: seq<Offer>, b: seq<Offer>)
    requires Joins(side, o, before, a) && Joins(side, o, before, b)
    ensures a == b
  {
    var i: nat :| JoinsAt(side, o, before, a, i);
    var j: nat :| JoinsAt(side, o, before, b, j);
    JoinsBehind(side, o, before, a, i);
    JoinsBehind(side, o, before, b, j);
  }

  lemma {:induction false} EnqueueJoins(side: Side, levels: seq<Level>, price: Price, o: Resting)
    requires Sorted(side, levels)
    ensures Joins(side, Offer(price, o), Flatten(levels), Flatten(Enqueue(side, levels, price, o)))
  {
    var a, b := EnqueuePriority(side, levels, price, o);
    var before, after := Flatten(levels), Flatten(Enqueue(side, levels, price, o));
    assert before[..|a|] == a && before[|a|..] == b;
    forall k | 0 <= k < |a| ensures !Less(side, price, before[k].price) {
      assert before[k] in a;
    }
    forall k | |a| <= k < |before| ensures Less(side, price, before[k].price) {
      assert before[k] == b[k - |a|] && before[k] in b;
    }
    assert JoinsAt(side, Offer(price, o), before, after, |a|);
  }

  // ---------- adding ----------

  /** The order is matched: the best opposite offer is within its limit and not at the invalid price. */
  ghost predicate Meets(b: Book, side: Side, price: Price) {
    var offers := OffersOn(b, Opposite(side));
    offers != [] && Acceptable(side, price, offers[0].price) && offers[0].price != INVALID_PRICE
  }

  ghost predicate HasLevel(b: Book, side: Side, price: Price) {
    exists i :: 0 <= i < |Ladder(b, side)| && Ladder(b, side)[i].price == price
  }

  ghost predicate Rests(b: Book, id: OrderId) { Holds(OffersOn(b, Buy), id) || Holds(OffersOn(b, Sell), id) }

  /** When an order is accepted: its identity is new, there is a slot for it, and it is matched or has a level. */
  ghost predicate Welcome(lim: Limits, b: Book, id: OrderId, side: Side, price: Price) {
    && !Rests(b, id) && |OffersOn(b, Buy)| + |OffersOn(b, Sell)| < lim.orders
    && (Meets(b, side, price) || HasLevel(b, side, price) || |b.bids| + |b.asks| < lim.levels)
  }

  /** What an accepted order does: it is filled from the opposite offers in turn, and what is left of it joins its own
      side; an order that is matched to the end does not. */
  ghost predicate Placed(b: Book, id: OrderId, side: Side, price: Price, qty: Quantity, b': Book, trades: seq<Trade>) {
    var own, other := OffersOn(b, side), OffersOn(b, Opposite(side));
    var own', other' := OffersOn(b', side), OffersOn(b', Opposite(side));
    var left := qty - Traded(trades);
    && (if Meets(b, side, price) then Fills(side, price, qty, other, trades, other')
        else trades == [] && other' == other)
    && 0 <= left
    && (if Meets(b, side, price) && left == 0 then own' == own && b'.clock == b.clock
        else Joins(side, Offer(price, Resting(id, left, b.clock)), own, own') && b'.clock == b.clock + 1)
  }

  /** What adding an order comes to, in all cases. */
  ghost predicate Added(lim: Limits, b: Book, id: OrderId, side: Side, price: Price, qty: Quantity, r: Outcome) {
    && r.ok == Welcome(lim, b, id, side, price)
    && (if r.ok then Placed(b, id, side, price, qty, r.book, r.trades) else r.book == b && r.trades == [])
  }

  lemma {:induction false} MeetsCrosses(b: Book, side: Side, price: Price)
    requires NonEmpty(Ladder(b, Opposite(side)))
    ensures Meets(b, side, price) <==> Crosses(b, side, price)
  {
    FirstOffer(Ladder(b, Opposite(side)));
  }

  lemma {:induction false} WelcomeAccepts(lim: Limits, b: Book, id: OrderId, side: Side, price: Price)
    requires Proper(lim, b)
    ensures Welcome(lim, b, id, side, price) <==> Accepts(lim, b, id, side, price)
  {
    hide Ids, Flatten, HasPrice, Crosses, Meets;
    MeetsCrosses(b, side, price);
    HasPriceAt(Ladder(b, side), price);
    OffersIds(b.bids, id);
    OffersIds(b.asks, id);
  }

  lemma {:induction false} MatchedFills(b: Book, side: Side, price: Price, qty: Quantity)
    requires Sorted(Opposite(side), Ladder(b, Opposite(side))) && NonEmpty(Ladder(b, Opposite(side)))
    ensures var m := Matched(b, side, price, qty);
      && Traded(m.trades) + m.left == qty
      && (if Meets(b, side, price) then Fills(side, price, qty, OffersOn(b, Opposite(side)), m.trades, Flatten(m.rest))
          else m.trades == [] && Flatten(m.rest) == OffersOn(b, Opposite(side)))
  {
    hide Fills, Greedy, Crosses, Meets, Sorted, NonEmpty;
    var levels := Ladder(b, Opposite(side));
    MeetsCrosses(b, side, price);
    SweepIsGreedy(side, price, qty, levels);
    FlattenByPrice(side, levels);
    GreedyFills(side, price, qty, Flatten(levels));
  }

  /** Adding an order does this, whatever the order and the book. */
  lemma {:induction false} AddLaw(lim: Limits, b: Book, id: OrderId, side: Side, price: Price, qty: Quantity)
    requires Proper(lim, b)
    ensures Added(lim, b, id, side, price, qty, Add(lim, b, id, side, price, qty))
  {
    hide Fills, Add, Accepts, Welcome, Crosses, Meets, Joins, Flatten, Sorted, NonEmpty, Timely;
    AllOrNothing(lim, b, id, side, price, qty);
    WelcomeAccepts(lim, b, id, side, price);
    if Accepts(lim, b, id, side, price) {
      PlacedByPhases(lim, b, id, side, price, qty);
    }
  }

  lemma {:induction false} PlacedByPhases(lim: Limits, b: Book, id: OrderId, side: Side, price: Price, qty: Quantity)
    requires Proper(lim, b) && Accepts(lim, b, id, side, price)
    ensures var r := Add(lim, b, id, side, price, qty); Placed(b, id, side, price, qty, r.book, r.trades)
  {
    hide Fills, Add, Crosses, Meets, Joins, Flatten, Sorted, NonEmpty, Timely;
    var m, b' := Matched(b, side, price, qty), AfterMatching(b, side, price, qty);
    AllOrNothing(lim, b, id, side, price, qty);
    AddPhases(lim, b, id, side, price, qty);
    MatchedFills(b, side, price, qty);
    MeetsCrosses(b, side, price);
    EnqueueJoins(side, Ladder(b, side), price, Resting(id, m.left, b.clock));
  }

  ghost predicate Laddered(b: Book) {
    Sorted(Buy, b.bids) && NonEmpty(b.bids) && Sorted(Sell, b.asks) && NonEmpty(b.asks)
  }

  /** A book is given by its offers and its clock. */
  lemma {:induction false} SameBook(a: Book, b: Book)
    requires Laddered(a) && Laddered(b) && a.clock == b.clock
    requires OffersOn(a, Buy) == OffersOn(b, Buy) && OffersOn(a, Sell) == OffersOn(b, Sell)
    ensures a == b
  {
    SameOffers(Buy, a.bids, b.bids);
    SameOffers(Sell, a.asks, b.asks);
  }

  /** Two outcomes of the same placing are the same. */
  lemma {:induction false} PlacedOnly(b: Book, id: OrderId, side: Side, price: Price, qty: Quantity,
      x: Book, t: seq<Trade>, y: Book, u: seq<Trade>)
    requires Laddered(b) && Laddered(x) && Laddered(y)
    requires Placed(b, id, side, price, qty, x, t) && Placed(b, id, side, price, qty, y, u)
    ensures x == y && t == u
  {
    hide Fills, Joins, Flatten, Sorted, NonEmpty, Traded;
    var own, other := OffersOn(b, side), OffersOn(b, Opposite(side));
    if Meets(b, side, price) {
      OffersByPrice(b, side);
      FillsOnly(side, price, qty, other, t, OffersOn(x, Opposite(side)));
      FillsOnly(side, price, qty, other, u, OffersOn(y, Opposite(side)));
    }
    var left := qty - Traded(t);
    if !(Meets(b, side, price) && left == 0) {
      JoinsOnly(side, Offer(price, Resting(id, left, b.clock)), own, OffersOn(x, side), OffersOn(y, side));
    }
    assert OffersOn(x, side) == OffersOn(y, side) && OffersOn(x, Opposite(side)) == OffersOn(y, Opposite(side));
    SameBook(x, y);
  }

  lemma {:induction false} OffersByPrice(b: Book, side: Side)
    requires Laddered(b)
    ensures ByPrice(side, OffersOn(b, Opposite(side)))
  {
    FlattenByPrice(side, Ladder(b, Opposite(side)));
  }

  /** And nothing else does: the outcome of adding is the only proper book, with the only trades, of this kind. */
  lemma {:induction false} AddOnly(lim: Limits, b: Book, id: OrderId, side: Side, price: Price, qty: Quantity,
      r: Outcome)
    requires Proper(lim, b) && Proper(lim, r.book)
    ensures Added(lim, b, id, side, price, qty, r) <==> r == Add(lim, b, id, side, price, qty)
  {
    hide Placed, Welcome, Add, Sorted, NonEmpty, Timely;
    var s := Add(lim, b, id, side, price, qty);
    AddLaw(lim, b, id, side, price, qty);
    AddProper(lim, b, id, side, price, qty);
    if Added(lim, b, id, side, price, qty, r) && r.ok {
      PlacedOnly(b, id, side, price, qty, r.book, r.trades, s.book, s.trades);
    }
  }

  // ---------- cancelling and modifying ----------

  /** The order with the identity leaves the offers of its side, and nothing else changes. */
  ghost predicate Leaving(b: Book, id: OrderId, side: Side, b': Book) {
    && b'.clock == b.clock && Ladder(b', Opposite(side)) == Ladder(b, Opposite(side))
    && exists k :: TakenAt(OffersOn(b, side), id, OffersOn(b', side), k)
  }

  ghost predicate TakenAt(before: seq<Offer>, id: OrderId, after: seq<Offer>, k: nat) {
    RemovedAt(after, before, k) && before[k].order.id == id
  }

  /** What cancelling comes to: an unknown identity changes nothing. */
  ghost predicate Cancelled(b: Book, id: OrderId, r: Outcome) {
    if !Rests(b, id) then r == Outcome(b, [], false)
    else r.ok && r.trades == [] && exists side :: Leaving(b, id, side, r.book)
  }

  lemma {:induction false} RestsKnown(b: Book, id: OrderId)
    ensures Rests(b, id) <==> id in OrderIds(b)
  {
    OffersIds(b.bids, id);
    OffersIds(b.asks, id);
  }

  lemma {:induction false} CancelLeaves(b: Book, id: OrderId)
    requires id in OrderIds(b)
    ensures Leaving(b, id, SideOf(b, id), Cancel(b, id).book)
  {
    hide Flatten, Without, Ids;
    var side := SideOf(b, id);
    SideHolds(b, id);
    var p, x, q := WithoutPriority(Ladder(b, side), id);
    var before := OffersOn(b, side);
    assert before[..|p|] == p && before[|p| + 1..] == q && before[|p|] == x;
    assert TakenAt(before, id, OffersOn(Cancel(b, id).book, side), |p|);
  }

  lemma {:induction false} CancelLaw(b: Book, id: OrderId)
    ensures Cancelled(b, id, Cancel(b, id))
  {
    hide Leaving, Rests, OrderIds, Without, Ids;
    RestsKnown(b, id);
    if id in OrderIds(b) {
      CancelLeaves(b, id);
    }
  }

  ghost function IdsOf(offers: seq<Offer>): multiset<OrderId> {
    if offers == [] then multiset{} else multiset{offers[0].order.id} + IdsOf(offers[1..])
  }

  lemma {:induction false} IdsOfFront(x: Offer, more: seq<Offer>)
    ensures IdsOf([x] + more) == multiset{x.order.id} + IdsOf(more)
  {
    assert ([x] + more)[1..] == more;
  }

  lemma {:induction false} IdsOfBoth(a: seq<Offer>, b: seq<Offer>)
    ensures IdsOf(a + b) == IdsOf(a) + IdsOf(b)
    decreases a, 1
  {
    if a == [] {
      assert a + b == b;
    } else {
      IdsOfLater(a, b);
    }
  }

  lemma {:induction false} IdsOfLater(a: seq<Offer>, b: seq<Offer>)
    requires a != []
    ensures IdsOf(a + b) == IdsOf(a) + IdsOf(b)
    decreases a, 0
  {
    hide IdsOf;
    IdsOfBoth(a[1..], b);
    IdsOfFront(a[0], a[1..]);
    IdsOfFront(a[0], a[1..] + b);
    assert a == [a[0]] + a[1..] && a + b == [a[0]] + (a[1..] + b);
  }

  lemma {:induction false} IdsOfQueue(price: Price, queue: seq<Resting>)
    ensures IdsOf(Offers(price, queue)) == QueueIds(queue)
  {
    if queue != [] {
      IdsOfQueue(price, queue[1..]);
      assert Offers(price, queue)[1..] == Offers(price, queue[1..]);
    }
  }

  lemma {:induction false} IdsOfLadder(levels: seq<Level>)
    ensures IdsOf(Flatten(levels)) == Ids(levels)
  {
    if levels != [] {
      IdsOfLadder(levels[1..]);
      IdsOfQueue(levels[0].price, levels[0].queue);
      IdsOfBoth(Offers(levels[0].price, levels[0].queue), Flatten(levels[1..]));
    }
  }

  lemma {:induction false} CountedAt(offers: seq<Offer>, i: nat)
    requires i < |offers|
    ensures IdsOf(offers)[offers[i].order.id] >= 1
  {
    if i > 0 {
      CountedAt(offers[1..], i - 1);
    }
  }

  lemma {:induction false} CountedTwice(offers: seq<Offer>, i: nat, j: nat)
    requires i < j < |offers| && offers[i].order.id == offers[j].order.id
    ensures IdsOf(offers)[offers[i].order.id] >= 2
  {
    if i == 0 {
      CountedAt(offers[1..], j - 1);
    } else {
      CountedTwice(offers[1..], i - 1, j - 1);
    }
  }

  lemma {:induction false} OnePlace(offers: seq<Offer>, id: OrderId, i: nat, j: nat)
    requires IdsOf(offers)[id] <= 1 && i < |offers| && j < |offers|
    requires offers[i].order.id == id == offers[j].order.id
    ensures i == j
  {
    if i < j {
      CountedTwice(offers, i, j);
    } else if j < i {
      CountedTwice(offers, j, i);
    }
  }

  /** An order can only leave one side and one place. */
  lemma {:induction false} LeavingOnly(b: Book, id: OrderId, side: Side, x: Book, side': Side, y: Book)
    requires Once(OrderIds(b)) && Laddered(x) && Laddered(y)
    requires Leaving(b, id, side, x) && Leaving(b, id, side', y)
    ensures side == side' && x == y
  {
    hide Flatten, Sorted, NonEmpty, Ids, IdsOf;
    var i: nat :| TakenAt(OffersOn(b, side), id, OffersOn(x, side), i);
    var j: nat :| TakenAt(OffersOn(b, side'), id, OffersOn(y, side'), j);
    IdsOfLadder(b.bids);
    IdsOfLadder(b.asks);
    CountedAt(OffersOn(b, side), i);
    CountedAt(OffersOn(b, side'), j);
    assert Ids(b.bids)[id] + Ids(b.asks)[id] == OrderIds(b)[id] <= 1;
    OnePlace(OffersOn(b, side), id, i, j);
    SameBook(x, y);
  }

  /** The outcome of cancelling is the only one of its kind. */
  lemma {:induction false} CancelOnly(lim: Limits, b: Book, id: OrderId, r: Outcome)
    requires Proper(lim, b) && Proper(lim, r.book)
    ensures Cancelled(b, id, r) <==> r == Cancel(b, id)
  {
    hide Leaving, Rests, Sorted, NonEmpty, Timely, Ids, Once, OrderIds;
    CancelLaw(b, id);
    CancelProper(lim, b, id);
    if Cancelled(b, id, r) && Rests(b, id) {
      var c := Cancel(b, id).book;
      var side :| Leaving(b, id, side, r.book);
      var side' :| Leaving(b, id, side', c);
      LeavingOnly(b, id, side, r.book, side', c);
    }
  }

  /** What modifying comes to: an unknown identity changes nothing; otherwise the order leaves its side, and an order
      of the same identity and side, with the new price and quantity, is added to what remains. */
  ghost predicate Modified(lim: Limits, b: Book, id: OrderId, price: Price, qty: Quantity, r: Outcome) {
    if !Rests(b, id) then r == Outcome(b, [], false)
    else exists side, c :: Leaving(b, id, side, c) && Proper(lim, c) && Added(lim, c, id, side, price, qty, r)
  }

  lemma {:induction false} ModifyLaw(lim: Limits, b: Book, id: OrderId, price: Price, qty: Quantity)
    requires Proper(lim, b)
    ensures Modified(lim, b, id, price, qty, Modify(lim, b, id, price, qty))
  {
    hide Leaving, Rests, OrderIds, Added, Proper, Add, Cancel;
    RestsKnown(b, id);
    if id in OrderIds(b) {
      var side, c := SideOf(b, id), Cancel(b, id).book;
      CancelLeaves(b, id);
      CancelProper(lim, b, id);
      AddLaw(lim, c, id, side, price, qty);
      var r := Modify(lim, b, id, price, qty);
      assert Leaving(b, id, side, c) && Proper(lim, c) && Added(lim, c, id, side, price, qty, r);
    }
  }

  /** The outcome of modifying is the only one of its kind. */
  lemma {:induction false} ModifyOnly(lim: Limits, b: Book, id: OrderId, price: Price, qty: Quantity, r: Outcome)
    requires Proper(lim, b) && Proper(lim, r.book)
    ensures Modified(lim, b, id, price, qty, r) <==> r == Modify(lim, b, id, price, qty)
  {
    hide Leaving, Rests, Sorted, NonEmpty, Timely, Ids, Once, OrderIds, Added, Add;
    ModifyLaw(lim, b, id, price, qty);
    if Modified(lim, b, id, price, qty, r) && Rests(b, id) {
      var side, c :| Leaving(b, id, side, c) && Proper(lim, c) && Added(lim, c, id, side, price, qty, r);
      RestsKnown(b, id);
      CancelLeaves(b, id);
      CancelProper(lim, b, id);
      LeavingOnly(b, id, side, c, SideOf(b, id), Cancel(b, id).book);
      AddOnly(lim, c, id, side, price, qty, r);
    }
  }
}
