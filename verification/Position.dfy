/** Position accounting of the backtester, with doubles as exact numbers. */
module Positions {
  import opened Types

  /** The conversion of a double to an integer: truncation toward zero. */
  function Truncate(x: real): int {
    if x >= 0.0 then x.Floor else -(-x).Floor
  }

  /** The conversion of a signed 64-bit integer to a 32-bit quantity. */
  function ToQuantity(x: int): Quantity { x % TWO_32 }

  datatype Fill = Fill(side: Side, price: Price, qty: Quantity, commission: real)

  class Position {
    var qty: int
    var avgEntryPrice: int
    var realizedPnl: real

    constructor ()
      ensures qty == 0 && avgEntryPrice == 0 && realizedPnl == 0.0
    {
      qty, avgEntryPrice, realizedPnl := 0, 0, 0.0;
    }

    ghost function Book(): Entry
      reads this
    {
      Entry(qty, avgEntryPrice, realizedPnl)
    }

    method AddFill(side: Side, price: Price, fill: Quantity, commission: real)
      modifies this
      ensures Book() == After(old(Book()), Fill(side, price, fill, commission))
      ensures Effect(old(Book()), Fill(side, price, fill, commission), Book())
    {
      hide Average, ToQuantity, Profit, Effect;
      ghost var e, f := Book(), Fill(side, price, fill, commission);
      EffectOnly(e, f, After(e, f));
      if fill == 0 {
        return;
      }
      var fillCommission := commission * fill as real;
      if side.Buy? {
        if qty >= 0 {
          avgEntryPrice, qty := Average(avgEntryPrice, qty, price, fill), qty + fill;
        } else if fill >= ToQuantity(-qty) {
          var closePnl := ((avgEntryPrice - price) * -qty) as real - fillCommission;
          ProfitOf(e, f, -qty);
          realizedPnl := realizedPnl + closePnl;
          qty := qty + fill;
          if qty > 0 {
            avgEntryPrice := price;
          }
        } else {
          var closePnl := ((avgEntryPrice - price) * fill) as real - fillCommission;
          ProfitOf(e, f, fill);
          realizedPnl := realizedPnl + closePnl;
          qty := qty + fill;
        }
      } else {
        if qty <= 0 {
          avgEntryPrice, qty := Average(avgEntryPrice, -qty, price, fill), qty - fill;
        } else if fill >= ToQuantity(qty) {
          var closePnl := ((price - avgEntryPrice) * qty) as real - fillCommission;
          ProfitOf(e, f, qty);
          realizedPnl := realizedPnl + closePnl;
          qty := qty - fill;
          if qty < 0 {
            avgEntryPrice := price;
          }
        } else {
          var closePnl := ((price - avgEntryPrice) * fill) as real - fillCommission;
          ProfitOf(e, f, fill);
          realizedPnl := realizedPnl + closePnl;
          qty := qty - fill;
        }
      }
    }

    /** With the realized profit, what the accounting reports at a price. */
    function UnrealizedPnl(current: Price): (r: real)
      reads this
      ensures r == ((current - avgEntryPrice) * qty) as real
      ensures realizedPnl + r == Reported(Book(), current)
    {
      Exact(current - avgEntryPrice, qty);
      Exact(avgEntryPrice - current, -qty);
      if qty == 0 then 0.0
      else if qty > 0 then (current - avgEntryPrice) as real * qty as real
      else (avgEntryPrice - current) as real * (-qty) as real
    }
  }

  // ---------- the same on values ----------

  datatype Entry = Entry(qty: int, avg: int, realized: real)

  const FLAT := Entry(0, 0, 0.0)

  function Abs(x: int): nat { if x < 0 then -x else x }

  /** The fill goes the same way as the position, or opens one. */
  predicate Adds(e: Entry, f: Fill) { f.qty > 0 && Along(f.side, e.qty) >= 0 }

  /** What closing one unit of the position gains. */
  function Gain(side: Side, avg: int, price: int): int { if side.Buy? then avg - price else price - avg }

  /** The truncated average of a position of `held` units extended by `fill` units. */
  function Average(avg: int, held: int, price: int, fill: int): int
    requires held + fill > 0
  {
    Truncate((avg as real * held as real + price as real * fill as real) / (held + fill) as real)
  }

  /** The position after a fill, for both sides at once. */
  function After(e: Entry, f: Fill): Entry {
    var held, q := Along(f.side, e.qty), e.qty + Along(f.side, f.qty);
    if f.qty == 0 then e
    else if held >= 0 then
      Entry(q, Average(e.avg, held, f.price, f.qty), e.realized)
    else
      var all := f.qty >= ToQuantity(-held);
      Entry(q, if all && Along(f.side, q) > 0 then f.price else e.avg,
        e.realized + Profit(e, f, if all then -held else f.qty))
  }

  /** What closing n units against the position earns, after the commission on the whole fill. */
  function Profit(e: Entry, f: Fill, n: int): real {
    (Gain(f.side, e.avg, f.price) * n) as real - f.commission * f.qty as real
  }

  /** The profit as the two sides of the source compute it. */
  lemma {:induction false} ProfitOf(e: Entry, f: Fill, n: int)
    ensures f.side.Buy? ==> Profit(e, f, n) == ((e.avg - f.price) * n) as real - f.commission * f.qty as real
    ensures f.side.Sell? ==> Profit(e, f, n) == ((f.price - e.avg) * n) as real - f.commission * f.qty as real
  {
  }

  lemma {:induction false} Exact(a: int, b: int)
    ensures a as real * b as real == (a * b) as real
  {
  }

  // ---------- the accounting identity ----------

  /** What the fills so far have cost: cash paid net of cash received, commissions charged on closing fills,
      and the units held after each fill that added to the position. */
  datatype Ledger = Ledger(cash: int, charged: real, exposure: nat)

  function Record(l: Ledger, e: Entry, f: Fill): Ledger {
    if f.qty == 0 then l
    else Ledger(l.cash + Along(f.side, f.price * f.qty),
                if Adds(e, f) then l.charged else l.charged + f.commission * f.qty as real,
                if Adds(e, f) then l.exposure + Abs(After(e, f).qty) else l.exposure)
  }

  /** The profit the accounting reports at a price, and the profit the ledger implies. */
  function Reported(e: Entry, m: int): real { e.realized + ((m - e.avg) * e.qty) as real }

  function Implied(l: Ledger, e: Entry, m: int): real { (m * e.qty - l.cash) as real - l.charged }

  function Error(l: Ledger, e: Entry): real { e.realized - (e.avg * e.qty) as real + l.cash as real + l.charged }

  /** The error of the reported profit, which does not depend on the price. */
  lemma {:induction false} ErrorAtAnyPrice(l: Ledger, e: Entry, m: int)
    ensures Reported(e, m) - Implied(l, e, m) == Error(l, e)
  {
    assert (m - e.avg) * e.qty == m * e.qty - e.avg * e.qty;
  }

  lemma {:induction false} TruncatedQuotient(total: real, n: int)
    requires n > 0
    ensures var d := total - Truncate(total / n as real) as real * n as real;
      -(n as real) < d < n as real && (total >= 0.0 ==> d >= 0.0) && (total <= 0.0 ==> d <= 0.0)
  {
    var x, r := total / n as real, n as real;
    Undivide(total, r);
    SameSign(x, r);
    Spread(x, Truncate(x) as real, r);
    Stretch(x - Truncate(x) as real, r, total - Truncate(x) as real * r);
  }

  lemma {:induction false} SameSign(x: real, n: real)
    requires n > 0.0
    ensures x * n >= 0.0 ==> x >= 0.0
    ensures x * n <= 0.0 ==> x <= 0.0
  {
  }

  lemma {:induction false} Spread(x: real, t: real, n: real)
    ensures (x - t) * n == x * n - t * n
  {
  }

  lemma {:induction false} Undivide(x: real, n: real)
    requires n > 0.0
    ensures x / n * n == x
  {
  }

  lemma {:induction false} Stretch(x: real, n: real, z: real)
    requires -1.0 < x < 1.0 && n > 0.0 && z == x * n
    ensures -n < z < n && (x >= 0.0 ==> z >= 0.0) && (x <= 0.0 ==> z <= 0.0)
  {
  }

  lemma {:induction false} AverageError(avg: int, held: int, price: int, fill: int)
    requires held + fill > 0
    ensures var n := held + fill;
      -n < avg * held + price * fill - Average(avg, held, price, fill) * n < n
    ensures TowardZero(avg * held + price * fill, held + fill, Average(avg, held, price, fill))
  {
    var n := held + fill;
    TruncatedQuotient(avg as real * held as real + price as real * fill as real, n);
    Exact(avg, held);
    Exact(price, fill);
    Exact(Average(avg, held, price, fill), n);
    var q := Average(avg, held, price, fill);
    assert (q + 1) * n == q * n + n && (q - 1) * n == q * n - n;
  }

  /** What a fill comes to. A position that a fill adds to is worth what it was and what is paid, spread over its units
      and cut off toward zero; nothing is realized. A fill against the position realizes the gain on the units it
      closes, less its commission: all that are held if the fill is miscounted, else as many as it can. The entry price
      only changes if the position turns. */
  ghost predicate Effect(e: Entry, f: Fill, e': Entry) {
    var held, long := Abs(e.qty), f.side.Buy?;
    && e'.qty == e.qty + Along(f.side, f.qty)
    && (if f.qty == 0 then e' == e
        else if e.qty == 0 || (e.qty > 0) == long then
          e'.realized == e.realized && TowardZero(e.avg * held + f.price * f.qty, held + f.qty, e'.avg)
        else
          var closed := if held % TWO_32 <= f.qty then held else Min(held, f.qty);
          var gain := (if long then e.avg - f.price else f.price - e.avg) * closed;
          && e'.realized == e.realized + (gain as real - f.commission * f.qty as real)
          && e'.avg == if f.qty > held then f.price else e.avg)
  }

  /** The transition is the only one of this kind. */
  lemma {:induction false} EffectOnly(e: Entry, f: Fill, e': Entry)
    ensures Effect(e, f, e') <==> e' == After(e, f)
  {
    var held, a := Along(f.side, e.qty), After(e, f);
    if f.qty > 0 && held >= 0 {
      EffectAdding(e, f, e');
    } else if f.qty > 0 {
      EffectClosing(e, f, e');
    }
  }

  lemma {:induction false} EffectAdding(e: Entry, f: Fill, e': Entry)
    requires Adds(e, f)
    ensures Effect(e, f, e') <==> e' == After(e, f)
  {
    hide Average, TowardZero;
    var held, a := Along(f.side, e.qty), After(e, f);
    AverageError(e.avg, held, f.price, f.qty);
    if Effect(e, f, e') {
      TowardZeroOnly(e.avg * held + f.price * f.qty, held + f.qty, e'.avg, a.avg);
    }
  }

  lemma {:induction false} EffectClosing(e: Entry, f: Fill, e': Entry)
    requires f.qty > 0 && Along(f.side, e.qty) < 0
    ensures Effect(e, f, e') <==> e' == After(e, f)
  {
    hide Profit, TowardZero;
    var held := -Along(f.side, e.qty);
    CutBelow(held);
    ProfitOf(e, f, if f.qty >= ToQuantity(held) then held else f.qty);
  }

  lemma {:induction false} CutBelow(x: nat)
    ensures 0 <= x % TWO_32 <= x
  {
  }

  /** Adding to a position adds an error smaller than the units then held. */
  lemma {:induction false} AddError(l: Ledger, e: Entry, f: Fill)
    requires Adds(e, f)
    ensures var d := Error(Record(l, e, f), After(e, f)) - Error(l, e);
      var n := Abs(After(e, f).qty);
      -(n as real) < d < n as real && Record(l, e, f).exposure == l.exposure + n
  {
    var held := Along(f.side, e.qty);
    var t := Average(e.avg, held, f.price, f.qty);
    AverageError(e.avg, held, f.price, f.qty);
    Opposite(e.avg, held);
    Opposite(t, held + f.qty);
  }

  /** With a value that is not negative, the error of adding makes a long position look better and a short one worse. */
  lemma {:induction false} AddErrorSide(l: Ledger, e: Entry, f: Fill)
    requires Adds(e, f) && e.avg >= 0 && f.price >= 0
    ensures var d := Error(Record(l, e, f), After(e, f)) - Error(l, e);
      if f.side.Buy? then d >= 0.0 else d <= 0.0
    ensures After(e, f).avg >= 0
  {
    var held := Along(f.side, e.qty);
    var t := Average(e.avg, held, f.price, f.qty);
    AverageError(e.avg, held, f.price, f.qty);
    NotNegative(e.avg, held, f.price, f.qty, t);
    Opposite(e.avg, held);
    Opposite(t, held + f.qty);
  }

  lemma {:induction false} NotNegative(a: nat, m: nat, p: nat, n: nat, q: int)
    requires m + n > 0 && TowardZero(a * m + p * n, m + n, q)
    ensures a * m + p * n >= 0 && q >= 0
  {
    NextMultiple(q, 0, m + n);
    assert (q + 1) * (m + n) == q * (m + n) + (m + n);
  }

  /** The units a fill against the position compares with are cut to 32 bits, and the fill then passes for one
      that closes everything although it closes less. */
  predicate Miscounts(e: Entry, f: Fill) {
    var held := -Along(f.side, e.qty);
    ToQuantity(held) <= f.qty < held
  }

  /** Closing in part, exactly or beyond adds no error, unless the fill is miscounted: then the profit is taken
      on units that are still held. */
  lemma {:induction false} CloseError(l: Ledger, e: Entry, f: Fill)
    requires f.qty > 0 && !Adds(e, f)
    ensures Error(Record(l, e, f), After(e, f)) - Error(l, e) ==
            (if Miscounts(e, f) then Gain(f.side, e.avg, f.price) * (-Along(f.side, e.qty) - f.qty) else 0) as real
  {
    var e', h, q := After(e, f), -Along(f.side, e.qty), f.qty;
    var n := if q >= ToQuantity(h) then h else q;
    var d := Gain(f.side, e.avg, f.price) * n - (e'.avg * e'.qty - e.avg * e.qty) + Along(f.side, f.price * q);
    assert Error(Record(l, e, f), e') - Error(l, e) == d as real;
    Balance(f.side, e.avg, e'.avg, f.price, h, q, n);
  }

  /** The integers of a closing fill on either side: h units held against it, q filled, n taken as closed. */
  lemma {:induction false} Balance(side: Side, a: int, b: int, p: int, h: int, q: int, n: int)
    ensures var d := Gain(side, a, p) * n - (b * Along(side, q - h) - a * Along(side, -h)) + Along(side, p * q);
      && (n == q && b == a ==> d == 0) && (n == h && b == p ==> d == 0) && (n == h && q == h ==> d == 0)
      && (n == h && b == a ==> d == Gain(side, a, p) * (h - q))
  {
    Opposite(a - p, n);
    Opposite(a - p, h - q);
    Opposite(b, q - h);
    Opposite(a, -h);
    if n == q && b == a {
      assert (a - p) * q - (a * (q - h) - a * -h) + p * q == 0;
    }
    if n == h && b == p {
      assert (a - p) * h - (p * (q - h) - a * -h) + p * q == 0;
    }
    if n == h && b == a {
      assert (a - p) * h - (a * (q - h) - a * -h) + p * q == (a - p) * (h - q);
    }
  }

  lemma {:induction false} Opposite(a: int, b: int)
    ensures a * -b == -(a * b) && -a * b == -(a * b)
  {
  }

  /** Exactly when a fill against the position keeps the books right, and a bound that a caller can check. */
  lemma {:induction false} CloseExact(l: Ledger, e: Entry, f: Fill)
    requires f.qty > 0 && !Adds(e, f)
    ensures Error(Record(l, e, f), After(e, f)) == Error(l, e) <==> !Miscounts(e, f) || f.price == e.avg
    ensures Abs(e.qty) < TWO_32 ==> !Miscounts(e, f)
  {
    if Abs(e.qty) < TWO_32 {
      SmallCounted(e, f);
    }
    CloseError(l, e, f);
    if Miscounts(e, f) {
      NonZero(Gain(f.side, e.avg, f.price), -Along(f.side, e.qty) - f.qty);
    }
  }

  lemma {:induction false} NonZero(x: int, y: int)
    requires y != 0
    ensures x * y == 0 <==> x == 0
  {
  }

  // ---------- whole histories ----------

  function Positions(fills: seq<Fill>): Entry {
    if fills == [] then FLAT else After(Positions(fills[..|fills| - 1]), fills[|fills| - 1])
  }

  function Ledgers(fills: seq<Fill>): Ledger {
    if fills == [] then Ledger(0, 0.0, 0)
    else Record(Ledgers(fills[..|fills| - 1]), Positions(fills[..|fills| - 1]), fills[|fills| - 1])
  }

  /** No fill is miscounted, for instance because no position on the way exceeds 32 bits. */
  ghost predicate Counted(fills: seq<Fill>) {
    fills == [] || (Counted(fills[..|fills| - 1]) && !Miscounts(Positions(fills[..|fills| - 1]), fills[|fills| - 1]))
  }

  lemma {:induction false} SmallPositionsCounted(fills: seq<Fill>)
    requires forall k :: 0 <= k <= |fills| ==> Abs(Positions(fills[..k]).qty) < TWO_32
    ensures Counted(fills)
    decreases |fills|
  {
    if fills != [] {
      var n := |fills| - 1;
      forall k | 0 <= k <= n ensures Abs(Positions(fills[..n][..k]).qty) < TWO_32 {
        assert fills[..n][..k] == fills[..k];
      }
      SmallPositionsCounted(fills[..n]);
      SmallCounted(Positions(fills[..n]), fills[n]);
    }
  }

  lemma {:induction false} SmallCounted(e: Entry, f: Fill)
    requires Abs(e.qty) < TWO_32
    ensures !Miscounts(e, f)
  {
    var held := -Along(f.side, e.qty);
    if held >= 0 {
      Uncut(held);
    }
  }

  lemma {:induction false} Uncut(x: nat)
    requires x < TWO_32
    ensures ToQuantity(x) == x
  {
  }

  /** Realized plus unrealized profit, at any price, is the value of the position less the net cash paid and the
      commissions charged on closing fills, up to one unit of price per unit held after each fill that added. */
  lemma {:induction false} AccountingIdentity(fills: seq<Fill>, m: int)
    requires Counted(fills)
    ensures var e, l := Positions(fills), Ledgers(fills);
      -(l.exposure as real) <= Reported(e, m) - Implied(l, e, m) <= l.exposure as real
    decreases |fills|
  {
    var e, l := Positions(fills), Ledgers(fills);
    ErrorAtAnyPrice(l, e, m);
    if fills != [] {
      var before, f := fills[..|fills| - 1], fills[|fills| - 1];
      AccountingIdentity(before, m);
      var e0, l0 := Positions(before), Ledgers(before);
      ErrorAtAnyPrice(l0, e0, m);
      if Adds(e0, f) {
        AddError(l0, e0, f);
      } else if f.qty > 0 {
        CloseError(l0, e0, f);
      }
    }
  }

  /** The units held after each adding fill of one side. */
  function Held(fills: seq<Fill>, side: Side): nat {
    if fills == [] then 0
    else
      var before, f := fills[..|fills| - 1], fills[|fills| - 1];
      Held(before, side) + if Adds(Positions(before), f) && f.side == side then Abs(Positions(fills).qty) else 0
  }

  lemma {:induction false} HeldExposure(fills: seq<Fill>)
    ensures Held(fills, Buy) + Held(fills, Sell) == Ledgers(fills).exposure
  {
    if fills != [] {
      HeldExposure(fills[..|fills| - 1]);
    }
  }

  /** With prices that are not negative, the reported profit is too high by at most the units held after fills that
      added to a long position, and too low by at most those held after fills that added to a short one. */
  lemma {:induction false} AccountingOneSided(fills: seq<Fill>, m: int)
    requires Counted(fills) && forall k :: 0 <= k < |fills| ==> fills[k].price >= 0
    ensures var e, l := Positions(fills), Ledgers(fills);
      -(Held(fills, Sell) as real) <= Reported(e, m) - Implied(l, e, m) <= Held(fills, Buy) as real
    ensures Positions(fills).avg >= 0
    decreases |fills|
  {
    var e, l := Positions(fills), Ledgers(fills);
    ErrorAtAnyPrice(l, e, m);
    if fills != [] {
      var before, f := fills[..|fills| - 1], fills[|fills| - 1];
      AccountingOneSided(before, m);
      var e0, l0 := Positions(before), Ledgers(before);
      ErrorAtAnyPrice(l0, e0, m);
      if Adds(e0, f) {
        AddError(l0, e0, f);
        AddErrorSide(l0, e0, f);
      } else if f.qty > 0 {
        CloseError(l0, e0, f);
      }
    }
  }

  /** The position is what was bought less what was sold. */
  function Net(fills: seq<Fill>): int {
    if fills == [] then 0
    else
      var f := fills[|fills| - 1];
      Net(fills[..|fills| - 1]) + Along(f.side, f.qty)
  }

  lemma {:induction false} PositionNet(fills: seq<Fill>)
    ensures Positions(fills).qty == Net(fills)
  {
    if fills != [] {
      PositionNet(fills[..|fills| - 1]);
    }
  }

  // ---------- a history that is miscounted ----------

  const BULK := Fill(Buy, 10, 0xFFFF_FFFF, 0.0)
  const UNIT := Fill(Buy, 10, 1, 0.0)
  const CLOSING := Fill(Sell, 12, 1, 0.0)

  /** Buying 2^32 - 1 units and one more at 10 leaves 2^32 units that cost 10 each, and the books are right. */
  lemma {:induction false} BulkPosition()
    ensures Positions([BULK, UNIT]) == Entry(TWO_32, 10, 0.0)
    ensures Ledgers([BULK, UNIT]) == Ledger(10 * TWO_32, 0.0, 0xFFFF_FFFF + TWO_32)
  {
    assert [BULK, UNIT][..1] == [BULK] && [BULK][..0] == [];
    assert Positions([]) == FLAT && Ledgers([]) == Ledger(0, 0.0, 0);
    var e, l := Entry(0xFFFF_FFFF, 10, 0.0), Ledger(10 * 0xFFFF_FFFF, 0.0, 0xFFFF_FFFF);
    assert Average(0, 0, 10, 0xFFFF_FFFF) == 10;
    assert After(FLAT, BULK) == e && Record(Ledger(0, 0.0, 0), FLAT, BULK) == l;
    assert Positions([BULK]) == e && Ledgers([BULK]) == l;
    assert Average(10, 0xFFFF_FFFF, 10, 1) == 10;
    assert After(e, UNIT) == Entry(TWO_32, 10, 0.0) && Record(l, e, UNIT).cash == 10 * TWO_32;
  }

  /** Selling one of them at 12 is miscounted: the gain on the 2^32 - 1 units still held is reported on top. */
  lemma {:induction false} MiscountReached(m: int)
    ensures Miscounts(Positions([BULK, UNIT]), CLOSING)
    ensures var h := [BULK, UNIT, CLOSING];
      && Positions(h).qty == TWO_32 - 1
      && Reported(Positions(h), m) - Implied(Ledgers(h), Positions(h), m) == (2 * Positions(h).qty) as real
  {
    BulkPosition();
    var h := [BULK, UNIT, CLOSING];
    assert h[..2] == [BULK, UNIT];
    var e, l := Positions([BULK, UNIT]), Ledgers([BULK, UNIT]);
    CloseError(l, e, CLOSING);
    ErrorAtAnyPrice(Ledgers(h), Positions(h), m);
  }
}
