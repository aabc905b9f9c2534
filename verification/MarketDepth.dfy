/** What the depth queries show of a ladder. */
module MarketDepth {
  import opened Sequences
  import opened Types
  import opened Sweeps
  import opened Ladders
  import opened BookSpec
  import opened BookRuns
  import opened Levels

  /** The copy of a level that the depth queries return, without its links. */
  datatype Quote = Quote(price: Price, totalQuantity: Quantity, orderCount: nat)

  ghost function Quotes(levels: seq<Level>): seq<Quote> {
    if levels == [] then []
    else [Quote(levels[0].price, Total(levels[0].queue), |levels[0].queue|)] + Quotes(levels[1..])
  }

  lemma {:induction false} QuotesAt(levels: seq<Level>)
    ensures |Quotes(levels)| == |levels|
    ensures forall i :: 0 <= i < |levels| ==>
      Quotes(levels)[i] == Quote(levels[i].price, Total(levels[i].queue), |levels[i].queue|)
  {
    if levels != [] {
      QuotesAt(levels[1..]);
    }
  }

  /** The first n levels are shown, or all if there are fewer, each with its price, its number of orders and their
      quantity modulo 2^32. */
  ghost predicate Shows(out: seq<Quote>, levels: seq<Level>, n: nat) {
    && |out| == Min(n, |levels|)
    && forall i :: 0 <= i < |out| ==>
         && out[i].price == levels[i].price && out[i].orderCount == |levels[i].queue|
         && out[i].totalQuantity == Queued(levels[i].queue) % TWO_32
  }

  lemma {:induction false} PrefixShows(levels: seq<Level>, n: nat, m: nat)
    ensures Shows(Prefix(Quotes(levels), n), levels, n)
    ensures Shows(Prefix(Quotes(levels), Min(n, m)), levels, n) <==> n <= m || |levels| <= m
  {
    QuotesAt(levels);
  }

  /** One level at most is shown, the best one. */
  ghost predicate ShowsBest(out: seq<Quote>, levels: seq<Level>, n: nat) { Shows(out, levels, Min(n, 1)) }

  lemma {:induction false} BestShown(levels: seq<Level>, n: nat)
    ensures ShowsBest(Prefix(Quotes(levels), Min(n, 1)), levels, n)
  {
    PrefixShows(levels, Min(n, 1), 1);
  }

  /** Showing the best level only is showing the first n levels exactly if no more were asked for or are there. */
  lemma {:induction false} BestOnly(levels: seq<Level>, n: nat)
    ensures Prefix(Quotes(levels), Min(n, 1)) == Prefix(Quotes(levels), n) <==> n <= 1 || |levels| <= 1
  {
    QuotesAt(levels);
    assert |Prefix(Quotes(levels), n)| == Min(n, |levels|);
    assert |Prefix(Quotes(levels), Min(n, 1))| == Min(Min(n, 1), |levels|);
  }

  /** Two bids at two prices: of the two levels asked for, only the better one is shown. */
  lemma {:induction false} SecondBidHidden()
    ensures var b := Run(Limits(2, 2), [AddOrder(1, Buy, 100, 5), AddOrder(2, Buy, 99, 7)]).book;
      && Quotes(b.bids) == [Quote(100, 5, 1), Quote(99, 7, 1)]
      && Prefix(Quotes(b.bids), Min(2, 1)) == [Quote(100, 5, 1)]
  {
    hide Apply, Quotes;
    var c, d, lim := AddOrder(1, Buy, 100, 5), AddOrder(2, Buy, 99, 7), Limits(2, 2);
    assert [c, d][..1] == [c] && [c][..0] == [];
    assert Run(lim, []) == Outcome(EMPTY, [], true);
    FirstBid();
    assert Run(lim, [c]).book == Book([Level(100, [Resting(1, 5, 0)])], [], 1);
    SecondBid();
    TwoQuotes();
  }

  lemma {:induction false} FirstBid()
    ensures Apply(Limits(2, 2), EMPTY, AddOrder(1, Buy, 100, 5)).book == Book([Level(100, [Resting(1, 5, 0)])], [], 1)
  {
  }

  lemma {:induction false} SecondBid()
    ensures var b := Book([Level(100, [Resting(1, 5, 0)])], [], 1);
      Apply(Limits(2, 2), b, AddOrder(2, Buy, 99, 7)).book.bids ==
        [Level(100, [Resting(1, 5, 0)]), Level(99, [Resting(2, 7, 1)])]
  {
    assert QueueIds([Resting(1, 5, 0)]) == multiset{1};
    assert Ids([Level(100, [Resting(1, 5, 0)])]) == multiset{1};
  }

  lemma {:induction false} TwoQuotes()
    ensures Quotes([Level(100, [Resting(1, 5, 0)]), Level(99, [Resting(2, 7, 1)])]) ==
      [Quote(100, 5, 1), Quote(99, 7, 1)]
  {
    var levels := [Level(100, [Resting(1, 5, 0)]), Level(99, [Resting(2, 7, 1)])];
    assert levels[1..] == [Level(99, [Resting(2, 7, 1)])];
  }
}
