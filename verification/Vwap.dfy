/** The volume-weighted average price over all trades. */
module Vwap {
  import opened Types

  datatype Trade = Trade(price: Price, qty: Quantity)

  /** Integer division of the source: toward zero. */
  function DivideToZero(x: int, n: int): int
    requires n > 0
  {
    if x >= 0 then x / n else -(-x / n)
  }

  function Volume(h: seq<Trade>): nat {
    if h == [] then 0 else Volume(h[..|h| - 1]) + h[|h| - 1].qty
  }

  function Turnover(h: seq<Trade>): int {
    if h == [] then 0 else Turnover(h[..|h| - 1]) + h[|h| - 1].price * h[|h| - 1].qty
  }

  class VwapSignalEngine {
    var cumulativePv: int
    var cumulativeQty: int
    var totalQty: Quantity
    ghost var trades: seq<Trade>

    ghost predicate Valid()
      reads this
    {
      cumulativePv == Turnover(trades) && cumulativeQty == Volume(trades) && totalQty == Volume(trades) % TWO_32
    }

    constructor ()
      ensures Valid() && trades == []
    {
      cumulativePv, cumulativeQty, totalQty, trades := 0, 0, 0, [];
    }

    method OnTrade(price: Price, qty: Quantity)
      requires Valid()
      modifies this
      ensures Valid() && trades == old(trades) + [Trade(price, qty)]
      ensures cumulativePv == old(cumulativePv) + price * qty && cumulativeQty == old(cumulativeQty) + qty
      ensures totalQty == (old(totalQty) + qty) % TWO_32
    {
      cumulativePv := cumulativePv + price * qty;
      cumulativeQty := cumulativeQty + qty;
      hide Turnover, Volume;
      TradeMore(trades, Trade(price, qty));
      WrapSum(Volume(trades), qty);
      totalQty := (totalQty + qty) % TWO_32;
      trades := trades + [Trade(price, qty)];
    }

    /** Zero without volume; otherwise turnover over volume, cut off toward zero, which is within the prices that
        were traded. */
    method CurrentVwap() returns (r: int)
      requires Valid()
      ensures Volume(trades) == 0 ==> r == 0
      ensures Volume(trades) > 0 ==> Traded(trades, r)
      ensures Volume(trades) > 0 ==> Near(Turnover(trades), r * Volume(trades), Volume(trades))
      ensures Volume(trades) > 0 ==> TowardZero(Turnover(trades), Volume(trades), r)
    {
      if cumulativeQty == 0 {
        return 0;
      }
      r := DivideToZero(cumulativePv, cumulativeQty);
      var lo, hi := Extremes(trades);
      Quotient(cumulativePv, cumulativeQty, trades[lo].price, trades[hi].price);
    }

    /** The 32-bit volume, which wraps around. */
    function TotalVolume(): (r: Quantity)
      requires Valid()
      reads this
      ensures r == Volume(trades) % TWO_32 == totalQty
    {
      totalQty
    }

    method Reset()
      modifies this
      ensures Valid() && trades == [] && cumulativePv == cumulativeQty == totalQty == 0
    {
      cumulativePv, cumulativeQty, totalQty, trades := 0, 0, 0, [];
    }
  }

  ghost predicate Near(x: int, y: int, d: int) { -d < x - y < d }

  /** x lies between the prices of two trades of positive quantity that bound all others. */
  ghost predicate Traded(h: seq<Trade>, x: int) {
    exists lo, hi :: 0 <= lo < |h| && 0 <= hi < |h| && Bounds(h, lo, hi) && h[lo].price <= x <= h[hi].price
  }

  ghost predicate Bounds(h: seq<Trade>, lo: int, hi: int)
    requires 0 <= lo < |h| && 0 <= hi < |h|
  {
    && h[lo].qty > 0 && h[hi].qty > 0
    && forall i :: 0 <= i < |h| && h[i].qty > 0 ==> h[lo].price <= h[i].price <= h[hi].price
  }

  lemma {:induction false} TradeMore(h: seq<Trade>, t: Trade)
    ensures Turnover(h + [t]) == Turnover(h) + t.price * t.qty && Volume(h + [t]) == Volume(h) + t.qty
  {
    assert (h + [t])[..|h|] == h;
  }

  lemma {:induction false} WrapSum(a: nat, b: nat)
    ensures (a % TWO_32 + b) % TWO_32 == (a + b) % TWO_32
  {
  }

  lemma {:induction false} Extremes(h: seq<Trade>) returns (lo: int, hi: int)
    requires Volume(h) > 0
    ensures 0 <= lo < |h| && 0 <= hi < |h| && Bounds(h, lo, hi)
    ensures h[lo].price * Volume(h) <= Turnover(h) <= h[hi].price * Volume(h)
  {
    var n := |h| - 1;
    var before, t := h[..n], h[n];
    if Volume(before) == 0 {
      NoVolume(before);
      lo, hi := n, n;
    } else {
      lo, hi := Extremes(before);
      Spread(before[lo].price, t.price, Volume(before), t.qty);
      Spread(before[hi].price, t.price, Volume(before), t.qty);
      var v := Volume(before);
      if t.qty > 0 && t.price < h[lo].price {
        Scale(t.price, h[lo].price, v);
        lo := n;
      } else if t.qty > 0 {
        Scale(h[lo].price, t.price, t.qty);
      }
      if t.qty > 0 && t.price > h[hi].price {
        Scale(h[hi].price, t.price, v);
        hi := n;
      } else if t.qty > 0 {
        Scale(t.price, h[hi].price, t.qty);
      }
    }
  }

  lemma {:induction false} NoVolume(h: seq<Trade>)
    requires Volume(h) == 0
    ensures Turnover(h) == 0 && forall i :: 0 <= i < |h| ==> h[i].qty == 0
  {
    if h != [] {
      NoVolume(h[..|h| - 1]);
    }
  }

  lemma {:induction false} Scale(a: int, b: int, n: nat)
    ensures a <= b ==> a * n <= b * n
  {
  }

  lemma {:induction false} Spread(a: int, b: int, m: int, n: int)
    ensures a * (m + n) == a * m + a * n && b * (m + n) == b * m + b * n
  {
  }

  lemma {:induction false} CutOff(x: int, n: int)
    requires n > 0
    ensures TowardZero(x, n, DivideToZero(x, n))
  {
    hide DivideToZero;
    Remainder(x, n);
    NextTo(DivideToZero(x, n), n);
  }

  lemma {:induction false} Remainder(x: int, n: int)
    requires n > 0
    ensures var r := x - DivideToZero(x, n) * n; (x >= 0 ==> 0 <= r < n) && (x <= 0 ==> -n < r <= 0)
  {
    if x > 0 {
      Euclid(x, n);
    } else if x < 0 {
      Euclid(-x, n);
    }
  }

  lemma {:induction false} NextTo(q: int, n: int)
    ensures (q + 1) * n == q * n + n && (q - 1) * n == q * n - n
  {
  }

  lemma {:induction false} Quotient(x: int, n: int, lo: int, hi: int)
    requires n > 0 && lo * n <= x <= hi * n
    ensures lo <= DivideToZero(x, n) <= hi && Near(x, DivideToZero(x, n) * n, n) && TowardZero(x, n, DivideToZero(x, n))
  {
    hide DivideToZero;
    var q := DivideToZero(x, n);
    CutOff(x, n);
    NextTo(q, n);
    NextMultiple(q, lo, n);
    NextMultiple(hi, q, n);
  }

  lemma {:induction false} Euclid(x: nat, n: nat)
    requires n > 0
    ensures 0 <= x - x / n * n < n && -(x / n) * n == -(x / n * n)
  {
  }
}
