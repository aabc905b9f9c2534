/** The basic types of the engine and their widths. */
module Types {
  datatype Side = Buy | Sell

  const MIN_INT64: int := -0x8000_0000_0000_0000
  const MAX_INT64: int := 0x7FFF_FFFF_FFFF_FFFF
  const TWO_32: int := 0x1_0000_0000
  const TWO_64: int := 0x1_0000_0000_0000_0000

  type Price = p: int | MIN_INT64 <= p <= MAX_INT64 witness 0
  type Quantity = q: int | 0 <= q < TWO_32 witness 0
  type OrderId = i: int | 0 <= i < TWO_64 witness 0

  const INVALID_PRICE: Price := MIN_INT64

  function Opposite(side: Side): Side { if side.Buy? then Sell else Buy }

  /** The comparison a side's tree is built with: bids run from high to low, asks from low to high. */
  predicate Less(side: Side, a: Price, b: Price) {
    if side.Buy? then a > b else a < b
  }

  /** Seen from a side: a price as a cost, which a buyer pays and a seller does not receive; a position as units the
      same way, long for a buyer and short for a seller. */
  function Along(side: Side, x: int): int { if side.Buy? then x else -x }

  function Min(a: int, b: int): int { if a < b then a else b }

  /** q is the quotient of x by n as the source divides: what is cut off points away from zero. */
  ghost predicate TowardZero(x: int, n: int, q: int) {
    (x >= 0 ==> q * n <= x < (q + 1) * n) && (x <= 0 ==> (q - 1) * n < x <= q * n)
  }

  lemma {:induction false} TowardZeroOnly(x: int, n: int, q: int, r: int)
    requires n > 0 && TowardZero(x, n, q) && TowardZero(x, n, r)
    ensures q == r
  {
    assert (q + 1) * n == q * n + n && (q - 1) * n == q * n - n;
    assert (r + 1) * n == r * n + n && (r - 1) * n == r * n - n;
    NextMultiple(q, r, n);
    NextMultiple(r, q, n);
  }

  lemma {:induction false} NextMultiple(q: int, r: int, n: int)
    requires n > 0
    ensures q < r ==> q * n + n <= r * n
  {
    if q < r {
      Stacked(q, r - q - 1, n);
    }
  }

  lemma {:induction false} Stacked(q: int, d: nat, n: nat)
    ensures (q + 1 + d) * n == q * n + n + d * n >= q * n + n
  {
  }
}
