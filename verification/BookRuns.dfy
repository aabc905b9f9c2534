/** Whole runs of the book from empty. */
module BookRuns {
  import opened Types
  import opened Sweeps
  import opened Ladders
  import opened BookSpec

  datatype Command =
    | AddOrder(id: OrderId, side: Side, price: Price, qty: Quantity)
    | CancelOrder(id: OrderId)
    | ModifyOrder(id: OrderId, price: Price, qty: Quantity)

  function Apply(lim: Limits, b: Book, c: Command): Outcome {
    match c
    case AddOrder(id, side, price, qty) => Add(lim, b, id, side, price, qty)
    case CancelOrder(id) => Cancel(b, id)
    case ModifyOrder(id, price, qty) => Modify(lim, b, id, price, qty)
  }

  /** The book after a run, with all its trades. The flag tells about the last command. */
  function Run(lim: Limits, run: seq<Command>): Outcome {
    if run == [] then Outcome(EMPTY, [], true)
    else
      var before := Run(lim, run[..|run| - 1]);
      var r := Apply(lim, before.book, run[|run| - 1]);
      Outcome(r.book, before.trades + r.trades, r.ok)
  }

  lemma {:induction false} ApplyProper(lim: Limits, b: Book, c: Command)
    requires Proper(lim, b)
    ensures Proper(lim, Apply(lim, b, c).book)
  {
    match c
    case AddOrder(id, side, price, qty) => AddProper(lim, b, id, side, price, qty);
    case CancelOrder(id) => CancelProper(lim, b, id);
    case ModifyOrder(id, price, qty) => ModifyProper(lim, b, id, price, qty);
  }

  /** Every run keeps the ladders sorted, levels non-empty, queues in order of arrival, identities unique,
      and within the capacity of the pools. */
  lemma {:induction false} RunProper(lim: Limits, run: seq<Command>)
    ensures Proper(lim, Run(lim, run).book)
    decreases |run|
  {
    if run != [] {
      RunProper(lim, run[..|run| - 1]);
      ApplyProper(lim, Run(lim, run[..|run| - 1]).book, run[|run| - 1]);
    }
  }

  // ---------- never crossed ----------

  predicate Priced(c: Command) {
    match c
    case AddOrder(_, _, price, _) => price != INVALID_PRICE
    case CancelOrder(_) => true
    case ModifyOrder(_, price, _) => price != INVALID_PRICE
  }

  predicate AllPriced(run: seq<Command>) {
    run == [] || (Priced(run[|run| - 1]) && AllPriced(run[..|run| - 1]))
  }

  /** No level stands at the invalid price, and no bid reaches an ask. */
  ghost predicate Safe(b: Book) { Quoted(b.bids) && Quoted(b.asks) && Uncrossed(b) }

  /** A valid price does not overlook an opposite level at a valid price. */
  lemma {:induction false} NotOverlooked(b: Book, side: Side, price: Price)
    requires Quoted(b.bids) && Quoted(b.asks)
    ensures !Overlooks(b, side, price)
  {
  }

  lemma {:induction false} RestQuoted(lim: Limits, b: Book, id: OrderId, side: Side, price: Price, qty: Quantity,
      trades: seq<Trade>)
    requires price != INVALID_PRICE && Quoted(b.bids) && Quoted(b.asks)
    ensures var r := Rest(lim, b, id, side, price, qty, trades).book; Quoted(r.bids) && Quoted(r.asks)
  {
    EnqueueQuoted(side, Ladder(b, side), price, Resting(id, qty, b.clock));
  }

  lemma {:induction false} AddSafe(lim: Limits, b: Book, id: OrderId, side: Side, price: Price, qty: Quantity)
    requires Proper(lim, b) && Safe(b) && price != INVALID_PRICE
    ensures Safe(Add(lim, b, id, side, price, qty).book)
  {
    hide Quoted, Uncrossed, Rest, Proper, Add, Matched, AfterMatching, Crosses, Sweep;
    AddUncrossed(lim, b, id, side, price, qty);
    NotOverlooked(b, side, price);
    if id !in OrderIds(b) && |OrderIds(b)| < lim.orders {
      var m, b' := Matched(b, side, price, qty), AfterMatching(b, side, price, qty);
      AddPhases(lim, b, id, side, price, qty);
      MatchedQuoted(b, side, price, qty);
      RestQuoted(lim, b', id, side, price, m.left, m.trades);
    } else {
      AllOrNothing(lim, b, id, side, price, qty);
    }
  }

  lemma {:induction false} CancelSafe(lim: Limits, b: Book, id: OrderId)
    requires Proper(lim, b) && Safe(b)
    ensures Safe(Cancel(b, id).book)
  {
    CancelUncrossed(lim, b, id);
    WithoutQuoted(b.bids, id);
    WithoutQuoted(b.asks, id);
  }

  lemma {:induction false} ApplySafe(lim: Limits, b: Book, c: Command)
    requires Proper(lim, b) && Safe(b) && Priced(c)
    ensures Safe(Apply(lim, b, c).book)
  {
    match c
    case AddOrder(id, side, price, qty) =>
      AddSafe(lim, b, id, side, price, qty);
    case CancelOrder(id) =>
      CancelSafe(lim, b, id);
    case ModifyOrder(id, price, qty) =>
      CancelSafe(lim, b, id);
      CancelProper(lim, b, id);
      AddSafe(lim, Cancel(b, id).book, id, SideOf(b, id), price, qty);
  }

  lemma {:induction false} RunSafe(lim: Limits, run: seq<Command>)
    requires AllPriced(run)
    ensures Safe(Run(lim, run).book)
    decreases |run|
  {
    if run != [] {
      RunSafe(lim, run[..|run| - 1]);
      RunProper(lim, run[..|run| - 1]);
      ApplySafe(lim, Run(lim, run[..|run| - 1]).book, run[|run| - 1]);
    }
  }

  /** With valid prices, every resting bid is below every resting ask, after any run. */
  lemma {:induction false} NeverCrossed(lim: Limits, run: seq<Command>, i: nat, j: nat)
    requires AllPriced(run)
    requires i < |Run(lim, run).book.bids| && j < |Run(lim, run).book.asks|
    ensures Run(lim, run).book.bids[i].price < Run(lim, run).book.asks[j].price
  {
    RunSafe(lim, run);
    RunProper(lim, run);
    UncrossedEverywhere(lim, Run(lim, run).book, i, j);
  }

  /** With the invalid price the book can be crossed: the ask that rests at it is not seen by the bid. */
  lemma {:induction false} InvalidPriceCrosses()
    ensures var run := [AddOrder(1, Sell, INVALID_PRICE, 5), AddOrder(2, Buy, 100, 5)];
      var r := Run(Limits(2, 2), run);
      r.trades == [] && !Uncrossed(r.book)
  {
    var c, d := AddOrder(1, Sell, INVALID_PRICE, 5), AddOrder(2, Buy, 100, 5);
    var lim := Limits(2, 2);
    assert [c, d][..1] == [c] && [c][..0] == [];
    assert Run(lim, []) == Outcome(EMPTY, [], true);
    var b := Run(lim, [c]).book;
    assert b == Book([], [Level(INVALID_PRICE, [Resting(1, 5, 0)])], 1);
    assert QueueIds([Resting(1, 5, 0)]) == multiset{1};
    assert Ids(b.asks) == multiset{1};
    var r := Apply(lim, b, d);
    assert r.book.bids == [Level(100, [Resting(2, 5, 1)])];
  }

  // ---------- conservation ----------

  /** The quantity that accepted commands bring in: a modification counts as its new quantity. */
  function BroughtIn(lim: Limits, b: Book, c: Command): nat {
    if !Apply(lim, b, c).ok || c.CancelOrder? then 0 else c.qty
  }

  /** The quantity that cancellations take out: a modification, even a failing one, first cancels. */
  function TakenOut(b: Book, c: Command): nat {
    if c.AddOrder? then 0 else RestingQuantity(b, c.id)
  }

  function AllBroughtIn(lim: Limits, run: seq<Command>): nat {
    if run == [] then 0
    else AllBroughtIn(lim, run[..|run| - 1]) + BroughtIn(lim, Run(lim, run[..|run| - 1]).book, run[|run| - 1])
  }

  function AllTakenOut(lim: Limits, run: seq<Command>): nat {
    if run == [] then 0
    else AllTakenOut(lim, run[..|run| - 1]) + TakenOut(Run(lim, run[..|run| - 1]).book, run[|run| - 1])
  }

  lemma {:induction false} ApplyConserves(lim: Limits, b: Book, c: Command)
    requires Proper(lim, b)
    ensures var r := Apply(lim, b, c);
      Volume(b) + BroughtIn(lim, b, c) == Volume(r.book) + 2 * Traded(r.trades) + TakenOut(b, c)
  {
    match c
    case AddOrder(id, side, price, qty) =>
      AddConserves(lim, b, id, side, price, qty);
    case CancelOrder(id) =>
      CancelConserves(b, id);
    case ModifyOrder(id, price, qty) =>
      CancelConserves(b, id);
      CancelProper(lim, b, id);
      AddConserves(lim, Cancel(b, id).book, id, SideOf(b, id), price, qty);
  }

  /** What was accepted rests, or was traded (with an equal quantity of the other side), or was cancelled. */
  lemma {:induction false} RunConserves(lim: Limits, run: seq<Command>)
    ensures var r := Run(lim, run);
      AllBroughtIn(lim, run) == Volume(r.book) + 2 * Traded(r.trades) + AllTakenOut(lim, run)
    decreases |run|
  {
    if run != [] {
      var before, c := run[..|run| - 1], run[|run| - 1];
      RunConserves(lim, before);
      RunProper(lim, before);
      ApplyConserves(lim, Run(lim, before).book, c);
      TradedAppend(Run(lim, before).trades, Apply(lim, Run(lim, before).book, c).trades);
    }
  }

  // ---------- priority ----------

  /** After any run the orders of a level stand in order of arrival. */
  lemma {:induction false} FirstComeFirst(lim: Limits, run: seq<Command>, side: Side, k: nat)
    requires k < |Ladder(Run(lim, run).book, side)|
    ensures var b := Run(lim, run).book;
      var queue := Ladder(b, side)[k].queue;
      && (forall i :: 0 <= i < |queue| ==> queue[i].arrival < b.clock)
      && forall i, j :: 0 <= i < j < |queue| ==> queue[i].arrival < queue[j].arrival
  {
    RunProper(lim, run);
    var b := Run(lim, run).book;
    TimelyAt(Ladder(b, side), b.clock, k);
    ArrivalIndexed(Ladder(b, side)[k].queue, 0, b.clock);
  }

  lemma {:induction false} TimelyAt(levels: seq<Level>, clock: nat, k: nat)
    requires Timely(levels, clock) && k < |levels|
    ensures InArrivalOrder(levels[k].queue, 0, clock)
  {
    if k > 0 {
      TimelyAt(levels[1..], clock, k - 1);
    }
  }
}
