/** Matching as a function on values: a ladder of price levels is swept by an incoming order, and the same sweep on
    the flat sequence of all offers. */
module Sweeps {
  import opened Types

  datatype Resting = Resting(id: OrderId, qty: Quantity, arrival: nat)

  datatype Level = Level(price: Price, queue: seq<Resting>)

  datatype Trade = Trade(price: Price, qty: Quantity, aggressor: Side)

  /** What a sweep leaves: its trades, the quantity not filled, and what still rests. */
  datatype Swept<T> = Swept(trades: seq<Trade>, left: Quantity, rest: seq<T>)

  function Following<T>(trades: seq<Trade>, s: Swept<T>): Swept<T> { Swept(trades + s.trades, s.left, s.rest) }

  /** A buyer accepts offers up to his limit, a seller offers down to it. */
  predicate Acceptable(side: Side, limit: Price, price: Price) {
    if side.Buy? then price <= limit else price >= limit
  }

  /** The inner loop: one level, order by order. */
  function FillLevel(side: Side, price: Price, qty: Quantity, queue: seq<Resting>): Swept<Resting> {
    if qty == 0 || queue == [] then Swept([], qty, queue)
    else
      var m := Min(qty, queue[0].qty);
      var t := [Trade(price, m, side)];
      if m == queue[0].qty then Following(t, FillLevel(side, price, qty - m, queue[1..]))
      else Swept(t, 0, [queue[0].(qty := queue[0].qty - m)] + queue[1..])
  }

  /** One round of it: the incoming order trades with the first one. */
  function Round(side: Side, price: Price, qty: Quantity, queue: seq<Resting>): Swept<Resting>
    requires queue != []
  {
    var m := Min(qty, queue[0].qty);
    var first := if m == queue[0].qty then [] else [queue[0].(qty := queue[0].qty - m)];
    Swept([Trade(price, m, side)], qty - m, first + queue[1..])
  }

  lemma {:induction false} FillRound(side: Side, price: Price, qty: Quantity, queue: seq<Resting>)
    requires qty > 0 && queue != []
    ensures var r := Round(side, price, qty, queue);
      FillLevel(side, price, qty, queue) == Following(r.trades, FillLevel(side, price, r.left, r.rest))
  {
    var r := Round(side, price, qty, queue);
    if r.left > 0 || r.trades[0].qty == queue[0].qty {
      assert r.rest == queue[1..];
    }
  }

  /** The outer loop: level by level from the best one, as long as the price is acceptable. */
  function Sweep(side: Side, limit: Price, qty: Quantity, levels: seq<Level>): Swept<Level>
    decreases levels
  {
    if qty == 0 || levels == [] || !Acceptable(side, limit, levels[0].price) then Swept([], qty, levels)
    else
      var f := FillLevel(side, levels[0].price, qty, levels[0].queue);
      if f.rest == [] then Following(f.trades, Sweep(side, limit, f.left, levels[1..]))
      else Swept(f.trades, f.left, [Level(levels[0].price, f.rest)] + levels[1..])
  }

  // ---------- the flat form ----------

  datatype Offer = Offer(price: Price, order: Resting)

  function Offers(price: Price, queue: seq<Resting>): (r: seq<Offer>) {
    if queue == [] then [] else [Offer(price, queue[0])] + Offers(price, queue[1..])
  }

  /** All offers of a ladder, by price and then by place in the queue. */
  function Flatten(levels: seq<Level>): seq<Offer> {
    if levels == [] then [] else Offers(levels[0].price, levels[0].queue) + Flatten(levels[1..])
  }

  function Greedy(side: Side, limit: Price, qty: Quantity, offers: seq<Offer>): Swept<Offer> {
    if qty == 0 || offers == [] || !Acceptable(side, limit, offers[0].price) then Swept([], qty, offers)
    else
      var o := offers[0].order;
      var m := Min(qty, o.qty);
      var t := [Trade(offers[0].price, m, side)];
      if m == o.qty then Following(t, Greedy(side, limit, qty - m, offers[1..]))
      else Swept(t, 0, [Offer(offers[0].price, o.(qty := o.qty - m))] + offers[1..])
  }

  predicate NonEmpty(levels: seq<Level>) {
    levels == [] || (levels[0].queue != [] && NonEmpty(levels[1..]))
  }

  lemma {:induction false} OffersFront(price: Price, queue: seq<Resting>, more: seq<Offer>)
    requires queue != []
    ensures var s := Offers(price, queue) + more;
      s != [] && s[0] == Offer(price, queue[0]) && s[1..] == Offers(price, queue[1..]) + more
  {
  }

  lemma {:induction false} FollowingBoth<T>(a: seq<Trade>, b: seq<Trade>, s: Swept<T>)
    ensures Following(a, Following(b, s)) == Following(a + b, s) && Following([], s) == s
  {
    assert a + (b + s.trades) == (a + b) + s.trades;
    assert [] + s.trades == s.trades;
  }

  /** The flat sweep of one level and what follows it. */
  ghost function FillThen(side: Side, limit: Price, price: Price, f: Swept<Resting>, more: seq<Offer>): Swept<Offer> {
    if f.rest == [] then Following(f.trades, Greedy(side, limit, f.left, more))
    else Swept(f.trades, f.left, Offers(price, f.rest) + more)
  }

  /** One turn of the flat sweep. */
  lemma {:induction false} GreedyTurn(side: Side, limit: Price, qty: Quantity, offers: seq<Offer>)
    requires qty > 0 && offers != [] && Acceptable(side, limit, offers[0].price)
    ensures var o := offers[0].order;
      var m := Min(qty, o.qty);
      var t := [Trade(offers[0].price, m, side)];
      Greedy(side, limit, qty, offers) ==
        if m == o.qty then Following(t, Greedy(side, limit, qty - m, offers[1..]))
        else Swept(t, 0, [Offer(offers[0].price, o.(qty := o.qty - m))] + offers[1..])
  {
  }

  lemma {:induction false} FillIsGreedy(side: Side, limit: Price, price: Price, qty: Quantity, queue: seq<Resting>,
      more: seq<Offer>)
    requires Acceptable(side, limit, price)
    ensures Greedy(side, limit, qty, Offers(price, queue) + more) ==
      FillThen(side, limit, price, FillLevel(side, price, qty, queue), more)
    decreases queue
  {
    if queue == [] {
      assert Offers(price, queue) + more == more;
      FollowingBoth([], [], Greedy(side, limit, qty, more));
    } else if qty > 0 {
      FillIsGreedyTurn(side, limit, price, qty, queue, more);
    }
  }

  lemma {:induction false} FillIsGreedyTurn(side: Side, limit: Price, price: Price, qty: Quantity, queue: seq<Resting>,
      more: seq<Offer>)
    requires Acceptable(side, limit, price) && queue != [] && qty > 0
    ensures Greedy(side, limit, qty, Offers(price, queue) + more) ==
      FillThen(side, limit, price, FillLevel(side, price, qty, queue), more)
    decreases queue, 0
  {
    hide Greedy, Following, Offers;
    OffersFront(price, queue, more);
    GreedyTurn(side, limit, qty, Offers(price, queue) + more);
    var m := Min(qty, queue[0].qty);
    if m == queue[0].qty {
      var t, f := [Trade(price, m, side)], FillLevel(side, price, qty - m, queue[1..]);
      FillIsGreedy(side, limit, price, qty - m, queue[1..], more);
      FillFollowing(side, limit, price, t, f, more);
    } else {
      FrontReduced(price, queue, queue[0].(qty := queue[0].qty - m), more);
    }
  }

  lemma {:induction false} FillFollowing(side: Side, limit: Price, price: Price, t: seq<Trade>, f: Swept<Resting>,
      more: seq<Offer>)
    ensures FillThen(side, limit, price, Following(t, f), more) == Following(t, FillThen(side, limit, price, f, more))
  {
    FollowingBoth(t, f.trades, Greedy(side, limit, f.left, more));
  }

  lemma {:induction false} FrontReduced(price: Price, queue: seq<Resting>, o: Resting, more: seq<Offer>)
    requires queue != []
    ensures [Offer(price, o)] + (Offers(price, queue) + more)[1..] == Offers(price, [o] + queue[1..]) + more
  {
    OffersFront(price, queue, more);
    assert ([o] + queue[1..])[1..] == queue[1..];
  }

  /** The nested sweep refines the flat one: the same trades, the same remainder, the same offers left. */
  lemma {:induction false} SweepIsGreedy(side: Side, limit: Price, qty: Quantity, levels: seq<Level>)
    requires NonEmpty(levels)
    ensures var s, g := Sweep(side, limit, qty, levels), Greedy(side, limit, qty, Flatten(levels));
      s.trades == g.trades && s.left == g.left && Flatten(s.rest) == g.rest && NonEmpty(s.rest)
    decreases levels
  {
    if qty > 0 && levels != [] && Acceptable(side, limit, levels[0].price) {
      var price, queue := levels[0].price, levels[0].queue;
      FillIsGreedy(side, limit, price, qty, queue, Flatten(levels[1..]));
      var f := FillLevel(side, price, qty, queue);
      if f.rest == [] {
        SweepIsGreedy(side, limit, f.left, levels[1..]);
      } else {
        var s := [Level(price, f.rest)] + levels[1..];
        assert s[1..] == levels[1..];
      }
    } else if levels != [] {
      assert Offers(levels[0].price, levels[0].queue)[0].price == levels[0].price;
    }
  }

  /** Trade k fills offer k at its price, and every trade but the last one fills it completely. */
  lemma {:induction false} TradesFollowOffers(side: Side, limit: Price, qty: Quantity, offers: seq<Offer>)
    ensures var trades := Greedy(side, limit, qty, offers).trades;
      && |trades| <= |offers|
      && forall k :: 0 <= k < |trades| ==>
           && trades[k].price == offers[k].price && trades[k].aggressor == side
           && Acceptable(side, limit, offers[k].price)
           && (k < |trades| - 1 ==> trades[k].qty == offers[k].order.qty)
    decreases offers
  {
    if qty > 0 && offers != [] && Acceptable(side, limit, offers[0].price) && offers[0].order.qty <= qty {
      TradesFollowOffers(side, limit, qty - offers[0].order.qty, offers[1..]);
    }
  }

  /** What rests afterwards: the offers after the last trade, before them the part of the last one it left. */
  lemma {:induction false} OnlyLastPartial(side: Side, limit: Price, qty: Quantity, offers: seq<Offer>)
    ensures var g := Greedy(side, limit, qty, offers);
      var n := |g.trades|;
      if n == 0 then g.rest == offers
      else
        && n <= |offers| && g.trades[n - 1].qty <= offers[n - 1].order.qty
        && (if g.trades[n - 1].qty == offers[n - 1].order.qty then g.rest == offers[n..]
            else g.left == 0 && g.rest == [Reduced(offers[n - 1], g.trades[n - 1].qty)] + offers[n..])
    decreases offers
  {
    if qty > 0 && offers != [] && Acceptable(side, limit, offers[0].price) && offers[0].order.qty <= qty {
      OnlyLastPartial(side, limit, qty - offers[0].order.qty, offers[1..]);
      var n := |Greedy(side, limit, qty, offers).trades|;
      assert offers[1..][n - 1..] == offers[n..];
      assert n > 1 ==> offers[1..][n - 2] == offers[n - 1];
    }
  }

  function Reduced(o: Offer, m: Quantity): Offer
    requires m <= o.order.qty
  {
    Offer(o.price, o.order.(qty := o.order.qty - m))
  }

  // ---------- what is filled ----------

  function Traded(trades: seq<Trade>): nat {
    if trades == [] then 0 else trades[0].qty + Traded(trades[1..])
  }

  function Queued(queue: seq<Resting>): nat {
    if queue == [] then 0 else queue[0].qty + Queued(queue[1..])
  }

  function Quantities(levels: seq<Level>): nat {
    if levels == [] then 0 else Queued(levels[0].queue) + Quantities(levels[1..])
  }

  /** What rests at acceptable prices. */
  function Reachable(side: Side, limit: Price, levels: seq<Level>): nat {
    if levels == [] || !Acceptable(side, limit, levels[0].price) then 0
    else Queued(levels[0].queue) + Reachable(side, limit, levels[1..])
  }

  lemma {:induction false} TradedAppend(a: seq<Trade>, b: seq<Trade>)
    ensures Traded(a + b) == Traded(a) + Traded(b)
  {
    if a == [] {
      assert a + b == b;
    } else {
      assert (a + b)[1..] == a[1..] + b;
      TradedAppend(a[1..], b);
    }
  }

  lemma {:induction false} FillConserves(side: Side, price: Price, qty: Quantity, queue: seq<Resting>)
    ensures var f := FillLevel(side, price, qty, queue);
      && Traded(f.trades) + f.left == qty && Traded(f.trades) + Queued(f.rest) == Queued(queue)
      && (f.left > 0 ==> f.rest == [])
  {
    if qty > 0 && queue != [] {
      var m := Min(qty, queue[0].qty);
      var t := [Trade(price, m, side)];
      if m == queue[0].qty {
        FillConserves(side, price, qty - m, queue[1..]);
        TradedAppend(t, FillLevel(side, price, qty - m, queue[1..]).trades);
      } else {
        var rest := [queue[0].(qty := queue[0].qty - m)] + queue[1..];
        assert rest[1..] == queue[1..];
      }
    }
  }

  /** Nothing is lost: what is traded leaves both sides. As much is traded as is wanted and reachable. */
  lemma {:induction false} SweepConserves(side: Side, limit: Price, qty: Quantity, levels: seq<Level>)
    ensures var s := Sweep(side, limit, qty, levels);
      && Traded(s.trades) + s.left == qty && Traded(s.trades) + Quantities(s.rest) == Quantities(levels)
      && Traded(s.trades) == Min(qty, Reachable(side, limit, levels))
      && (s.left > 0 && s.rest != [] ==> !Acceptable(side, limit, s.rest[0].price))
    decreases levels
  {
    if qty > 0 && levels != [] && Acceptable(side, limit, levels[0].price) {
      var f := FillLevel(side, levels[0].price, qty, levels[0].queue);
      FillConserves(side, levels[0].price, qty, levels[0].queue);
      if f.rest == [] {
        SweepConserves(side, limit, f.left, levels[1..]);
        TradedAppend(f.trades, Sweep(side, limit, f.left, levels[1..]).trades);
      } else {
        var s := [Level(levels[0].price, f.rest)] + levels[1..];
        assert s[1..] == levels[1..];
      }
    }
  }

  lemma {:induction false} SweepStops(side: Side, limit: Price, qty: Quantity, levels: seq<Level>, trades: seq<Trade>)
    requires qty == 0 || levels == [] || !Acceptable(side, limit, levels[0].price)
    ensures Following(trades, Sweep(side, limit, qty, levels)) == Swept(trades, qty, levels)
  {
  }

  /** One turn of the outer loop: the best level is filled, and dropped if nothing of it is left. */
  lemma {:induction false} SweepFirst(side: Side, limit: Price, qty: Quantity, levels: seq<Level>)
    requires qty > 0 && levels != [] && Acceptable(side, limit, levels[0].price)
    ensures var f := FillLevel(side, levels[0].price, qty, levels[0].queue);
      var rest := if f.rest == [] then levels[1..] else levels[0 := Level(levels[0].price, f.rest)];
      && Sweep(side, limit, qty, levels) == Following(f.trades, Sweep(side, limit, f.left, rest))
      && (f.rest != [] ==> f.left == 0)
  {
    FillConserves(side, levels[0].price, qty, levels[0].queue);
    var f := FillLevel(side, levels[0].price, qty, levels[0].queue);
    if f.rest != [] {
      assert levels[0 := Level(levels[0].price, f.rest)] == [Level(levels[0].price, f.rest)] + levels[1..];
    }
  }

  // ---------- optimality ----------

  /** Signed price times quantity of the trades: what a buyer pays, or what a seller does not receive. */
  function Notional(side: Side, trades: seq<Trade>): int {
    if trades == [] then 0 else Along(side, trades[0].price) * trades[0].qty + Notional(side, trades[1..])
  }

  /** An amount for each offer, at most what it offers. */
  predicate Takes(offers: seq<Offer>, a: seq<nat>) {
    |a| == |offers| && (offers == [] || (a[0] <= offers[0].order.qty && Takes(offers[1..], a[1..])))
  }

  function Amount(a: seq<nat>): nat { if a == [] then 0 else a[0] + Amount(a[1..]) }

  function Cost(side: Side, offers: seq<Offer>, a: seq<nat>): int
    requires Takes(offers, a)
  {
    if a == [] then 0 else Along(side, offers[0].price) * a[0] + Cost(side, offers[1..], a[1..])
  }

  /** From a price on, no offer is cheaper. */
  ghost predicate Dearer(side: Side, p: int, offers: seq<Offer>)
    decreases offers
  {
    offers == [] || (p <= Along(side, offers[0].price) && Dearer(side, Along(side, offers[0].price), offers[1..]))
  }

  lemma {:induction false} DearerMonotone(side: Side, p: int, q: int, offers: seq<Offer>)
    requires Dearer(side, q, offers) && p <= q
    ensures Dearer(side, p, offers)
  {
  }

  lemma {:induction false} TakingDear(side: Side, p: int, offers: seq<Offer>, a: seq<nat>)
    requires Dearer(side, p, offers) && Takes(offers, a)
    ensures p * Amount(a) <= Cost(side, offers, a)
  {
    if a != [] {
      var q := Along(side, offers[0].price);
      DearerMonotone(side, p, q, offers[1..]);
      TakingDear(side, p, offers[1..], a[1..]);
      Scale(p, q, a[0]);
      Distribute(p, a[0], Amount(a[1..]));
    }
  }

  lemma {:induction false} Scale(p: int, q: int, n: nat)
    requires p <= q
    ensures p * n <= q * n
  {
  }

  lemma {:induction false} Distribute(p: int, a: int, b: int)
    ensures p * (a + b) == p * a + p * b && p * (a - b) == p * a - p * b
  {
  }

  /** `a` units instead of `o` at price q, the difference made up for at the price m. */
  lemma {:induction false} Exchange(q: int, m: int, o: int, a: int, n: int, t: int, x: int, c: int)
    requires n + m * (x - t) <= c && (q == m || (q <= m && a <= o))
    ensures (q * o + n) + m * ((a + x) - (o + t)) <= q * a + c
  {
    assert (q * o + n) + m * ((a + x) - (o + t)) == q * a + (n + m * (x - t)) - (m - q) * (o - a);
    if a <= o {
      Scale(0, m - q, o - a);
    }
  }

  /** The dearest price that the sweep pays, or `p` if it pays none. */
  function Marginal(side: Side, trades: seq<Trade>, p: int): int {
    if trades == [] then p else Along(side, trades[|trades| - 1].price)
  }

  /** Any taking costs at least what the sweep pays, up to the marginal price for the difference in quantity. */
  lemma {:induction false} SweepCheapest(side: Side, limit: Price, qty: Quantity, offers: seq<Offer>, a: seq<nat>,
      p: int)
    requires Dearer(side, p, offers) && Takes(offers, a)
    ensures var g := Greedy(side, limit, qty, offers);
      var m := Marginal(side, g.trades, p);
      p <= m && Notional(side, g.trades) + m * (Amount(a) - Traded(g.trades)) <= Cost(side, offers, a)
    decreases offers
  {
    hide Notional, Traded, Amount, Cost;
    NoTrades(side);
    if qty == 0 || offers == [] || !Acceptable(side, limit, offers[0].price) {
      TakingDear(side, p, offers, a);
    } else {
      var q, m := Along(side, offers[0].price), Min(qty, offers[0].order.qty);
      if m == offers[0].order.qty {
        SweepCheapest(side, limit, qty - m, offers[1..], a[1..], q);
      } else {
        TakingDear(side, q, offers[1..], a[1..]);
      }
      var trades := Greedy(side, limit, qty, offers).trades;
      assert trades[0] == Trade(offers[0].price, m, side);
      assert trades[1..] == if m == offers[0].order.qty then Greedy(side, limit, qty - m, offers[1..]).trades else [];
      CheapestFirst(side, offers, a, trades, q);
    }
  }

  lemma {:induction false} NoTrades(side: Side)
    ensures Notional(side, []) == 0 && Traded([]) == 0
  {
  }

  lemma {:induction false} CheapestFirst(side: Side, offers: seq<Offer>, a: seq<nat>, trades: seq<Trade>, q: int)
    requires offers != [] && Takes(offers, a) && trades != [] && q == Along(side, offers[0].price)
    requires trades[0].price == offers[0].price
    requires trades[0].qty < offers[0].order.qty ==> trades[1..] == []
    requires trades[0].qty <= offers[0].order.qty
    requires var k := Marginal(side, trades[1..], q);
      q <= k && Notional(side, trades[1..]) + k * (Amount(a[1..]) - Traded(trades[1..])) <=
        Cost(side, offers[1..], a[1..])
    ensures var k := Marginal(side, trades, q);
      q <= k && Notional(side, trades) + k * (Amount(a) - Traded(trades)) <= Cost(side, offers, a)
  {
    var k := Marginal(side, trades[1..], q);
    assert k == Marginal(side, trades, q);
    Exchange(q, k, trades[0].qty, a[0], Notional(side, trades[1..]), Traded(trades[1..]), Amount(a[1..]),
      Cost(side, offers[1..], a[1..]));
  }

  /** Offers by price: from the first one on, none is cheaper than the one before it. */
  ghost predicate ByPrice(side: Side, offers: seq<Offer>) {
    offers == [] || Dearer(side, Along(side, offers[0].price), offers)
  }

  /** The sweep takes its quantity at the best total price, whatever offers the same quantity could be taken from. */
  lemma {:induction false} SweepOptimal(side: Side, limit: Price, qty: Quantity, offers: seq<Offer>, a: seq<nat>)
    requires ByPrice(side, offers) && Takes(offers, a)
    requires Amount(a) == Traded(Greedy(side, limit, qty, offers).trades)
    ensures Notional(side, Greedy(side, limit, qty, offers).trades) <= Cost(side, offers, a)
  {
    if offers != [] {
      SweepCheapest(side, limit, qty, offers, a, Along(side, offers[0].price));
    }
  }

  /** From p on, the trades get dearer, and none is beyond the limit. */
  ghost predicate Ascending(side: Side, p: int, limit: int, trades: seq<Trade>)
    decreases trades
  {
    trades == [] || (
      && p <= Along(side, trades[0].price) <= Along(side, limit)
      && Ascending(side, Along(side, trades[0].price), limit, trades[1..]))
  }

  lemma {:induction false} SweepAscends(side: Side, limit: Price, qty: Quantity, offers: seq<Offer>, p: int)
    requires Dearer(side, p, offers)
    ensures var g := Greedy(side, limit, qty, offers);
      Ascending(side, p, limit, g.trades) && Notional(side, g.trades) <= Along(side, limit) * Traded(g.trades)
    decreases offers
  {
    if qty > 0 && offers != [] && Acceptable(side, limit, offers[0].price) {
      var q, o := Along(side, offers[0].price), offers[0].order;
      var m := Min(qty, o.qty);
      var g := Greedy(side, limit, qty, offers);
      Scale(q, Along(side, limit), m);
      if m == o.qty {
        SweepAscends(side, limit, qty - m, offers[1..], q);
        assert g.trades[1..] == Greedy(side, limit, qty - m, offers[1..]).trades;
        Distribute(Along(side, limit), m, Traded(g.trades[1..]));
      } else {
        assert g.trades[1..] == [];
      }
    }
  }
}
