/** Replaying recorded messages: the book that is built is the one the specification runs to. */
module Replays {
  import opened Types
  import opened Sweeps
  import opened BookSpec
  import opened BookRuns
  import opened OrderBooks

  const MAX_ORDERS: nat := 1_000_000
  const MAX_PRICE_LEVELS: nat := 100_000
  const ORDER_MAP_SIZE: nat := 1_048_576
  const INVALID_ORDER_ID: OrderId := 0

  datatype OrderType = Limit | Market | CancelType | ModifyType

  datatype Message = Message(id: OrderId, price: Price, qty: Quantity, side: Side, kind: OrderType)

  predicate IsValid(m: Message) { m.id != INVALID_ORDER_ID && m.qty > 0 }

  /** The commands the messages give: invalid ones and market orders are passed over. */
  function Commands(messages: seq<Message>): seq<Command> {
    if messages == [] then []
    else Commands(messages[..|messages| - 1]) + CommandOf(messages[|messages| - 1])
  }

  function CommandOf(m: Message): seq<Command> {
    if !IsValid(m) then []
    else
      match m.kind
      case Limit => [AddOrder(m.id, m.side, m.price, m.qty)]
      case CancelType => [CancelOrder(m.id)]
      case ModifyType => [ModifyOrder(m.id, m.price, m.qty)]
      case Market => []
  }

  const CAPACITY := Limits(MAX_ORDERS, MAX_PRICE_LEVELS)

  lemma {:induction false} RunMore(lim: Limits, run: seq<Command>, c: Command)
    ensures var before := Run(lim, run);
      var r := Apply(lim, before.book, c);
      Run(lim, run + [c]) == Outcome(r.book, before.trades + r.trades, r.ok)
  {
    var more := run + [c];
    assert more[..|more| - 1] == run && more[|more| - 1] == c;
  }

  method Dispatch(book: OrderBook, m: Message, trades: seq<Trade>, ghost run: seq<Command>)
      returns (trades': seq<Trade>, ghost frame: set<object>)
    requires book.Valid() && book.Lim() == CAPACITY
    requires book.View() == Run(CAPACITY, run).book && trades == Run(CAPACITY, run).trades
    modifies book.Repr()
    ensures book.Valid() && frame == book.Repr() && fresh(frame - old(book.Repr()))
    ensures var r := Run(CAPACITY, run + CommandOf(m)); book.View() == r.book && trades' == r.trades
  {
    hide OrderBook.Valid, OrderBook.View, OrderBook.Repr, Run, Add, Cancel, Modify;
    trades', frame := trades, book.Repr();
    if !IsValid(m) {
      assert run + CommandOf(m) == run;
      return;
    }
    match m.kind {
      case Limit =>
        RunMore(CAPACITY, run, AddOrder(m.id, m.side, m.price, m.qty));
        var ok;
        ok, trades' := book.AddOrder(m.id, m.side, m.price, m.qty, trades);
      case CancelType =>
        RunMore(CAPACITY, run, CancelOrder(m.id));
        var ok := book.CancelOrder(m.id);
        NoTrades(book, m.id, run);
      case ModifyType =>
        RunMore(CAPACITY, run, ModifyOrder(m.id, m.price, m.qty));
        var ok;
        ok, trades' := book.ModifyOrder(m.id, m.price, m.qty, trades);
      case Market =>
        assert run + CommandOf(m) == run;
    }
    frame := book.Repr();
  }

  lemma {:induction false} NoTrades(book: OrderBook, id: OrderId, run: seq<Command>)
    ensures Run(CAPACITY, run).trades + Cancel(Run(CAPACITY, run).book, id).trades == Run(CAPACITY, run).trades
  {
  }

  method NewBook(hash: OrderId -> nat) returns (book: OrderBook)
    ensures book.Valid() && book.Lim() == CAPACITY && book.View() == EMPTY && fresh(book) && fresh(book.Repr())
  {
    hide OrderBook.Valid, OrderBook.View;
    book := new OrderBook(MAX_ORDERS, MAX_PRICE_LEVELS, ORDER_MAP_SIZE, hash);
  }

  lemma {:induction false} CommandsMore(messages: seq<Message>, i: nat)
    requires i < |messages|
    ensures Commands(messages[..i + 1]) == Commands(messages[..i]) + CommandOf(messages[i])
  {
    assert messages[..i + 1][..i] == messages[..i];
  }

  method RunReplay(messages: seq<Message>, hash: OrderId -> nat) returns (book: OrderBook, trades: seq<Trade>)
    ensures fresh(book) && book.Valid() && book.Lim() == CAPACITY
    ensures var r := Run(CAPACITY, Commands(messages)); book.View() == r.book && trades == r.trades
  {
    hide *;
    book := NewBook(hash);
    trades := [];
    EmptyRun();
    ghost var frame := book.Repr();
    for i := 0 to |messages|
      invariant book.Valid() && book.Lim() == CAPACITY && fresh(book) && frame == book.Repr()
      invariant fresh(frame)
      invariant var r := Run(CAPACITY, Commands(messages[..i])); book.View() == r.book && trades == r.trades
    {
      CommandsMore(messages, i);
      trades, frame := Dispatch(book, messages[i], trades, Commands(messages[..i]));
    }
    assert messages[..|messages|] == messages;
  }

  /** What one more message does to the replayed book and trades. A message without an identity or a quantity, and a
      market order, does nothing. */
  ghost predicate Follows(r: Outcome, m: Message, r': Outcome) {
    var next :=
      if m.id == 0 || m.qty == 0 || m.kind.Market? then Outcome(r.book, [], true)
      else if m.kind.Limit? then Add(CAPACITY, r.book, m.id, m.side, m.price, m.qty)
      else if m.kind.CancelType? then Cancel(r.book, m.id)
      else Modify(CAPACITY, r.book, m.id, m.price, m.qty);
    r'.book == next.book && r'.trades == r.trades + next.trades
  }

  /** The replay of a history starts with the empty book and handles its messages one by one, in order. */
  lemma {:induction false} ReplayFollows(messages: seq<Message>, m: Message)
    ensures Run(CAPACITY, Commands([])) == Outcome(EMPTY, [], true)
    ensures Follows(Run(CAPACITY, Commands(messages)), m, Run(CAPACITY, Commands(messages + [m])))
  {
    hide Run, Add, Cancel, Modify, CAPACITY;
    var more := messages + [m];
    assert more[..|messages|] == messages && more[..|messages| + 1] == more;
    EmptyRun();
    CommandsMore(more, |messages|);
    var run, r := Commands(messages), Run(CAPACITY, Commands(messages));
    if CommandOf(m) == [] {
      assert run + [] == run && r.trades + [] == r.trades;
    } else {
      RunMore(CAPACITY, run, CommandOf(m)[0]);
      assert run + CommandOf(m) == run + [CommandOf(m)[0]];
    }
  }

  lemma {:induction false} EmptyRun()
    ensures Commands([]) == [] && Run(CAPACITY, []) == Outcome(EMPTY, [], true)
  {
  }
}
