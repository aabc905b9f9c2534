/** The largest fall of the backtester's equity from a peak. */
module Drawdown {

  class Tracker {
    var peakEquity: real
    var currentDrawdown: real
    ghost var equity: seq<real>

    ghost predicate Valid()
      reads this
    {
      IsPeak(equity, peakEquity) && IsLargestFall(equity, currentDrawdown)
    }

    constructor ()
      ensures Valid() && equity == [0.0]
    {
      peakEquity, currentDrawdown, equity := 0.0, 0.0, [0.0];
      new;
      assert equity[0] == 0.0 && Fall(equity, 0, 0, 0.0);
    }

    method UpdateDrawdown(e: real)
      requires Valid()
      modifies this
      ensures Valid() && equity == old(equity) + [e]
    {
      PeakNext(equity, peakEquity, e);
      FallNext(equity, peakEquity, currentDrawdown, e);
      if e > peakEquity {
        peakEquity := e;
      }
      var dd := peakEquity - e;
      if dd > currentDrawdown {
        currentDrawdown := dd;
      }
      equity := equity + [e];
    }
  }

  ghost predicate IsPeak(s: seq<real>, p: real) {
    (exists i :: 0 <= i < |s| && s[i] == p) && forall i :: 0 <= i < |s| ==> s[i] <= p
  }

  ghost predicate Fall(s: seq<real>, i: int, j: int, d: real) {
    0 <= i <= j < |s| && s[i] - s[j] == d
  }

  /** d is the largest fall from any value to a later one. */
  ghost predicate IsLargestFall(s: seq<real>, d: real) {
    (exists i, j :: Fall(s, i, j, d)) && forall i, j :: 0 <= i <= j < |s| ==> s[i] - s[j] <= d
  }

  function Max(a: real, b: real): real { if a > b then a else b }

  lemma {:induction false} PeakNext(s: seq<real>, p: real, e: real)
    requires IsPeak(s, p)
    ensures IsPeak(s + [e], Max(e, p))
  {
    var t := s + [e];
    var i :| 0 <= i < |s| && s[i] == p;
    assert t[i] == p && t[|s|] == e;
  }

  lemma {:induction false} FallNext(s: seq<real>, p: real, d: real, e: real)
    requires IsPeak(s, p) && IsLargestFall(s, d)
    ensures IsLargestFall(s + [e], Max(Max(e, p) - e, d))
  {
    var t := s + [e];
    var i, j :| Fall(s, i, j, d);
    assert Fall(t, i, j, d);
    var k :| 0 <= k < |s| && s[k] == p;
    assert Fall(t, k, |s|, p - e);
    assert Fall(t, |s|, |s|, 0.0);
    assert d >= s[0] - s[0];
  }
}
