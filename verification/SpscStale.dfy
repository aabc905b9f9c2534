/** Calls that fail although the ring has room, or an item, because the index they load is not the newest one. */
module SpscStale {
  import opened SpscProtocol
  import opened SpscInvariant

  /** From the state after the first `skip` accesses on, the ring holds between lo and hi items all along the run. */
  ghost predicate Holding<T>(n: nat, s: State<T>, acts: seq<Action<T>>, skip: nat, lo: int, hi: int)
    requires Shaped(n, s)
    decreases |acts|
  {
    && (skip == 0 ==> lo <= |s.pushed| - |s.popped| <= hi)
    && (acts == [] || (
        && Enabled(n, s, acts[0])
        && Holding(n, Step(n, s, acts[0]).0, acts[1..], if skip > 0 then skip - 1 else 0, lo, hi)))
  }

  /** The run leads from the start to s, and the ring holds between lo and hi items after `skip` accesses. */
  ghost predicate Leads<T>(n: nat, acts: seq<Action<T>>, s: State<T>, skip: nat, lo: int, hi: int) {
    Shaped(n, s) && Reachable(n, acts, s) && Holding(n, Start(n), acts, skip, lo, hi)
  }

  lemma {:induction false} HoldingMore<T>(n: nat, s0: State<T>, acts: seq<Action<T>>, s: State<T>, a: Action<T>,
                                          skip: nat, lo: int, hi: int)
    requires Shaped(n, s0) && Run(n, s0, acts, s) && Shaped(n, s) && Enabled(n, s, a)
    requires Holding(n, s0, acts, skip, lo, hi)
    requires var s' := Step(n, s, a).0; |acts| + 1 >= skip ==> lo <= |s'.pushed| - |s'.popped| <= hi
    ensures Run(n, s0, acts + [a], Step(n, s, a).0) && Holding(n, s0, acts + [a], skip, lo, hi)
    decreases |acts|
  {
    var more := acts + [a];
    if acts == [] {
      assert more[0] == a && more[1..] == [];
      assert Run(n, Step(n, s, a).0, [], Step(n, s, a).0);
    } else {
      assert more[0] == acts[0] && more[1..] == acts[1..] + [a];
      HoldingMore(n, Step(n, s0, acts[0]).0, acts[1..], s, a, if skip > 0 then skip - 1 else 0, lo, hi);
    }
  }

  /** One access more. */
  lemma {:induction false} Next<T>(n: nat, acts: seq<Action<T>>, s: State<T>, a: Action<T>, skip: nat, lo: int, hi: int)
      returns (acts': seq<Action<T>>, s': State<T>)
    requires Leads(n, acts, s, skip, lo, hi) && Enabled(n, s, a)
    requires var r := Step(n, s, a).0; |acts| + 1 >= skip ==> lo <= |r.pushed| - |r.popped| <= hi
    ensures s' == Step(n, s, a).0 && acts' == acts + [a] && Leads(n, acts', s', skip, lo, hi)
  {
    HoldingMore(n, Start(n), acts, s, a, skip, lo, hi);
    acts', s' := acts + [a], Step(n, s, a).0;
  }

  /** What one push adds to the state. */
  ghost predicate AfterPush<T>(n: nat, s: State<T>, x: T, s': State<T>)
    requires Shaped(n, s) && Shaped(n, s')
  {
    var i := Tail(s) % n;
    && s'.slots == s.slots[i := s.slots[i] + [x]] && s'.tails == s.tails + [(Tail(s) + 1) % n]
    && s'.released == s.released + [Last(s'.released)]
    && (forall i :: 0 <= i < n ==> Last(s'.released)[i] == |s'.slots[i]|)
    && s'.pushed == s.pushed + [x] && s'.popped == s.popped && s'.heads == s.heads
    && s'.producer == s.producer && s'.headCache == s.headCache && s'.headSeen == s.headSeen
    && s'.consumer == s.consumer && s'.tailCache == s.tailCache && s'.tailSeen == s.tailSeen
  }

  /** What a pop that loads the j-th value of the tail, and reads the first version of its slot, adds to the state. */
  ghost predicate AfterPop<T>(n: nat, s: State<T>, j: nat, s': State<T>)
    requires Shaped(n, s) && j < |s.tails|
  {
    var i := Head(s) % n;
    && s.slots[i] != [] && s.released[j][i] <= 1
    && s'.heads == s.heads + [(Head(s) + 1) % n] && s'.popped == s.popped + [s.slots[i][0]]
    && s'.tailCache == s.tails[j] && s'.tailSeen == j && s'.consumer == s.consumer
    && s'.slots == s.slots && s'.tails == s.tails && s'.released == s.released && s'.pushed == s.pushed
    && s'.producer == s.producer && s'.headCache == s.headCache && s'.headSeen == s.headSeen
  }

  /** A push that needs no load: its three accesses, and the state they lead to. */
  lemma {:induction false} PushAll<T>(n: nat, acts: seq<Action<T>>, s: State<T>, x: T, s': State<T>, skip: nat,
      lo: int, hi: int)
      returns (acts': seq<Action<T>>)
    requires Leads(n, acts, s, skip, lo, hi) && Shaped(n, s') && s.producer.PIdle? && (Tail(s) + 1) % n != s.headCache
    requires AfterPush(n, s, x, s')
    requires |s.pushed| - |s.popped| < hi
    requires var k := |s.pushed| - |s.popped|; (|acts| + 3 >= skip ==> lo <= k + 1) && (|acts| + 2 >= skip ==> lo <= k)
    ensures acts' == acts + [PushBegin(x), PushWrite, PushPublish] && Leads(n, acts', s', skip, lo, hi)
  {
    hide Run, Holding;
    var t;
    acts', t := Next(n, acts, s, PushBegin(x), skip, lo, hi);
    acts', t := Next(n, acts', t, PushWrite, skip, lo, hi);
    acts', t := Next(n, acts', t, PushPublish, skip, lo, hi);
    assert Last(t.released) == Last(s'.released);
    assert t == s';
  }

  /** A pop that loads the j-th value of the tail and reads the first version of its slot. */
  lemma {:induction false} PopAll<T>(n: nat, acts: seq<Action<T>>, s: State<T>, j: nat, s': State<T>, skip: nat,
      lo: int, hi: int)
      returns (acts': seq<Action<T>>)
    requires Leads(n, acts, s, skip, lo, hi) && s.consumer.CIdle? && Head(s) == s.tailCache
    requires s.tailSeen <= j < |s.tails| && Head(s) != s.tails[j]
    requires AfterPop(n, s, j, s')
    requires var k := |s.pushed| - |s.popped|; skip <= |acts| && lo < k <= hi
    ensures acts' == acts + [PopBegin, PopLoad(j), PopRead(0), PopPublish] && Leads(n, acts', s', skip, lo, hi)
  {
    hide Run, Holding;
    var t;
    acts', t := Next(n, acts, s, PopBegin, skip, lo, hi);
    acts', t := Next(n, acts', t, PopLoad(j), skip, lo, hi);
    acts', t := Next(n, acts', t, PopRead(0), skip, lo, hi);
    acts', t := Next(n, acts', t, PopPublish, skip, lo, hi);
    assert t == s';
  }

  // The states that the two runs below pass through.

  ghost function OneIn<T>(x: T): State<T> {
    State([0, 1], [0], [[x], [], []], [[0, 0, 0], [1, 0, 0]], PIdle, 0, 0, CIdle, 0, 0, [x], [])
  }

  ghost function OneOut<T>(x: T): State<T> {
    State([0, 1], [0, 1], [[x], [], []], [[0, 0, 0], [1, 0, 0]], PIdle, 0, 0, CIdle, 1, 1, [x], [x])
  }

  ghost function TwoIn<T>(x: T, y: T): State<T> {
    State([0, 1, 2], [0], [[x], [y], []], [[0, 0, 0], [1, 0, 0], [1, 1, 0]], PIdle, 0, 0, CIdle, 0, 0, [x, y], [])
  }

  ghost function OneOfTwoOut<T>(x: T, y: T): State<T> {
    State([0, 1, 2], [0, 1], [[x], [y], []], [[0, 0, 0], [1, 0, 0], [1, 1, 0]], PIdle, 0, 0, CIdle, 1, 1, [x, y], [x])
  }

  lemma {:induction false} StartLeads<T>(skip: nat, lo: int, hi: int)
    requires skip == 0 ==> lo <= 0 <= hi
    ensures Leads<T>(3, [], Start(3), skip, lo, hi)
  {
  }

  lemma {:induction false} FirstIn<T>(x: T, skip: nat, lo: int, hi: int) returns (acts: seq<Action<T>>)
    requires (skip == 0 && lo == 0 && hi == 1) || (skip == 3 && lo == 1 && hi == 2)
    ensures acts == [PushBegin(x), PushWrite, PushPublish] && Leads(3, acts, OneIn(x), skip, lo, hi)
  {
    hide Leads;
    StartLeads<T>(skip, lo, hi);
    var none: seq<T> := [];
    assert Start<T>(3).released == [[0, 0, 0]] by {
      assert seq(3, _ => 0) == [0, 0, 0];
    }
    assert none + [x] == [x] && Start<T>(3).slots == [[], [], []];
    assert OneIn(x).slots == Start<T>(3).slots[0 := none + [x]];
    acts := PushAll(3, [], Start(3), x, OneIn(x), skip, lo, hi);
  }

  lemma {:induction false} SecondIn<T>(acts: seq<Action<T>>, x: T, y: T, out: bool, skip: nat, lo: int, hi: int)
      returns (acts': seq<Action<T>>)
    requires Leads(3, acts, if out then OneOut(x) else OneIn(x), skip, lo, hi)
    requires if out then lo <= 0 < hi else lo <= 1 < hi
    ensures acts' == acts + [PushBegin(y), PushWrite, PushPublish]
    ensures Leads(3, acts', if out then OneOfTwoOut(x, y) else TwoIn(x, y), skip, lo, hi)
  {
    hide Leads;
    var none: seq<T> := [];
    assert none + [y] == [y] && [[x], [y], []] == [[x], none, []][1 := none + [y]];
    if out {
      acts' := PushAll(3, acts, OneOut(x), y, OneOfTwoOut(x, y), skip, lo, hi);
    } else {
      acts' := PushAll(3, acts, OneIn(x), y, TwoIn(x, y), skip, lo, hi);
    }
  }

  lemma {:induction false} FirstOut<T>(acts: seq<Action<T>>, x: T, y: T, two: bool, skip: nat, lo: int, hi: int)
      returns (acts': seq<Action<T>>)
    requires Leads(3, acts, if two then TwoIn(x, y) else OneIn(x), skip, lo, hi) && skip <= |acts|
    requires if two then lo <= 1 && 2 <= hi else lo <= 0 && 1 <= hi
    ensures acts' == acts + [PopBegin, PopLoad(1), PopRead(0), PopPublish]
    ensures Leads(3, acts', if two then OneOfTwoOut(x, y) else OneOut(x), skip, lo, hi)
  {
    hide Leads;
    if two {
      acts' := PopAll(3, acts, TwoIn(x, y), 1, OneOfTwoOut(x, y), skip, lo, hi);
    } else {
      acts' := PopAll(3, acts, OneIn(x), 1, OneOut(x), skip, lo, hi);
    }
  }

  /** Here the newest head leaves room, and the one before it does not; the same with the tail and an item. */
  lemma {:induction false} LastBegin<T>(acts: seq<Action<T>>, x: T, y: T, a: Action<T>, skip: nat, lo: int, hi: int)
      returns (s: State<T>)
    requires Leads(3, acts, OneOfTwoOut(x, y), skip, lo, hi) && lo <= 1 <= hi && (a == PushBegin(x) || a == PopBegin)
    ensures Leads(3, acts + [a], s, skip, lo, hi)
    ensures a == PushBegin(x) ==> Enabled(3, s, PushLoad(0)) && !Step(3, s, PushLoad(0)).1
    ensures a == PopBegin ==> Enabled(3, s, PopLoad(1)) && !Step(3, s, PopLoad(1)).1
  {
    hide Leads;
    var more;
    more, s := Next(3, acts, OneOfTwoOut(x, y), a, skip, lo, hi);
  }

  /** A ring for two items, which holds one at most all along the run: yet the last push fails, as it loads the index
      that the consumer had stored before it took out the first item. */
  lemma {:induction false} StalePush<T>(x: T, y: T) returns (acts: seq<Action<T>>, s: State<T>)
    ensures acts == [PushBegin(x), PushWrite, PushPublish] + [PopBegin, PopLoad(1), PopRead(0), PopPublish]
                  + [PushBegin(y), PushWrite, PushPublish] + [PushBegin(x)]
    ensures Leads(3, acts, s, 0, 0, 1) && Enabled(3, s, PushLoad(0)) && !Step(3, s, PushLoad(0)).1
  {
    hide *;
    acts := FirstIn(x, 0, 0, 1);
    acts := FirstOut(acts, x, y, false, 0, 0, 1);
    acts := SecondIn(acts, x, y, true, 0, 0, 1);
    s := LastBegin(acts, x, y, PushBegin(x), 0, 0, 1);
    acts := acts + [PushBegin(x)];
  }

  /** From the first item on the ring is never empty: yet the last pop fails, as it loads the index that the
      producer had stored before it put in the second item. */
  lemma {:induction false} StalePop<T>(x: T, y: T) returns (acts: seq<Action<T>>, s: State<T>)
    ensures acts == [PushBegin(x), PushWrite, PushPublish] + [PushBegin(y), PushWrite, PushPublish]
                  + [PopBegin, PopLoad(1), PopRead(0), PopPublish] + [PopBegin]
    ensures Leads(3, acts, s, 3, 1, 2) && Enabled(3, s, PopLoad(1)) && !Step(3, s, PopLoad(1)).1
  {
    hide *;
    acts := FirstIn(x, 3, 1, 2);
    acts := SecondIn(acts, x, y, false, 3, 1, 2);
    acts := FirstOut(acts, x, y, true, 3, 1, 2);
    s := LastBegin(acts, x, y, PopBegin, 3, 1, 2);
    acts := acts + [PopBegin];
  }
}
