/** What every interleaving of the two threads keeps, for any capacity and any staleness of the loads. */
module SpscInvariant {
  import opened SpscProtocol

  /** How many of the first w writes went to slot i. */
  ghost function Rounds(w: nat, n: nat, i: nat): nat
    requires n > 0
  {
    if w == 0 then 0 else Rounds(w - 1, n, i) + if (w - 1) % n == i then 1 else 0
  }

  lemma {:induction false} Scale(n: nat, q: int)
    requires n > 0
    ensures q >= 1 ==> n * q >= n
    ensures q <= -1 ==> n * q + n <= 0
  {
  }

  lemma {:induction false} DivMod(x: nat, n: nat, q: nat, r: nat)
    requires n > 0 && r < n && x == n * q + r
    ensures x % n == r
  {
    var e := q - x / n;
    assert x == n * (x / n) + x % n;
    assert n * e == n * q - n * (x / n);
    Scale(n, e);
  }

  lemma {:induction false} Residues(a: nat, b: nat, n: nat)
    requires n > 0 && a < b < a + n
    ensures a % n != b % n
  {
    var e := b / n - a / n;
    assert a == n * (a / n) + a % n && b == n * (b / n) + b % n;
    assert n * e == n * (b / n) - n * (a / n);
    Scale(n, e);
  }

  lemma {:induction false} RoundsFlat(h: nat, w: nat, n: nat)
    requires n > 0 && h < w <= h + n
    ensures Rounds(w, n, h % n) == Rounds(h, n, h % n) + 1
  {
    if w > h + 1 {
      RoundsFlat(h, w - 1, n);
      Residues(h, w - 1, n);
    }
  }

  lemma {:induction false} RoundsMonotone(a: nat, b: nat, n: nat, i: nat)
    requires n > 0 && a <= b
    ensures Rounds(a, n, i) <= Rounds(b, n, i)
  {
    if a < b {
      RoundsMonotone(a, b - 1, n, i);
    }
  }

  /** All writes to the buffer so far, in the order of the producer. */
  ghost function Written<T>(s: State<T>): seq<T> {
    s.pushed + if s.producer.PStore? then [s.producer.item] else []
  }

  ghost predicate Indices<T>(n: nat, s: State<T>)
    requires Shaped(n, s)
  {
    var t, h := |s.pushed|, |s.popped|;
    && |s.tails| == t + 1 && |s.heads| == h + 1
    && (forall j :: 0 <= j <= t ==> s.tails[j] == j % n)
    && (forall j :: 0 <= j <= h ==> s.heads[j] == j % n)
    && s.headCache == s.headSeen % n && s.tailCache == s.tailSeen % n
    && s.headSeen <= h <= s.tailSeen <= t <= s.headSeen + n - 1
    && (s.producer.PLoad? ==> t == s.headSeen + n - 1)
    && (s.producer.PWrite? || s.producer.PStore? ==> t < s.headSeen + n - 1)
    && (s.consumer.CLoad? ==> h == s.tailSeen)
    && (s.consumer.CRead? || s.consumer.CStore? ==> h < s.tailSeen)
  }

  ghost predicate Buffer<T>(n: nat, s: State<T>)
    requires Shaped(n, s)
  {
    var w := Written(s);
    && (forall i :: 0 <= i < n ==> |s.slots[i]| == Rounds(|w|, n, i))
    && (forall k :: 0 <= k < |w| ==> Holds(n, s, k, w[k]))
    && (forall j, i :: 0 <= j < |s.tails| && 0 <= i < n ==> s.released[j][i] == Rounds(j, n, i))
  }

  /** The k-th write is in the history of its slot. */
  ghost predicate Holds<T>(n: nat, s: State<T>, k: nat, item: T)
    requires Shaped(n, s)
  {
    var i, r := k % n, Rounds(k, n, k % n);
    r < |s.slots[i]| && s.slots[i][r] == item
  }

  ghost predicate Fifo<T>(s: State<T>) {
    && |s.popped| <= |s.pushed| && s.popped == s.pushed[..|s.popped|]
    && (s.consumer.CStore? ==> |s.popped| < |s.pushed| && s.consumer.item == s.pushed[|s.popped|])
  }

  ghost predicate Inv<T>(n: nat, s: State<T>) {
    Shaped(n, s) && Indices(n, s) && Buffer(n, s) && Fifo(s)
  }

  lemma {:induction false} StartInv<T>(n: nat)
    requires n > 0
    ensures Inv<T>(n, Start(n))
  {
  }

  /** Two wrapped indices at most a lap apart are equal exactly when the counters are equal or a lap apart. */
  lemma {:induction false} Wrap(a: nat, b: nat, n: nat)
    requires n > 0 && a <= b <= a + n
    ensures a % n == b % n <==> a == b || b == a + n
  {
    if a < b < a + n {
      Residues(a, b, n);
    } else if b == a + n {
      assert a == n * (a / n) + a % n;
      assert b == n * (a / n + 1) + a % n;
      DivMod(b, n, a / n + 1, a % n);
    }
  }

  /** Wrapping at every step is wrapping once. */
  lemma {:induction false} WrapNext(b: nat, n: nat)
    requires n > 0
    ensures (b % n + 1) % n == (b + 1) % n && b % n % n == b % n
  {
    var q, r := b / n, b % n;
    assert b == n * q + r;
    if r == n - 1 {
      assert b + 1 == n * (q + 1);
      DivMod(b + 1, n, q + 1, 0);
      DivMod(r + 1, n, 1, 0);
    } else {
      DivMod(b + 1, n, q, r + 1);
      DivMod(r + 1, n, 0, r + 1);
    }
    DivMod(r, n, 0, r);
  }

  /** At the read there is exactly one version the consumer can see, and it is the item in turn. */
  lemma {:induction false} OneReadable<T>(n: nat, s: State<T>)
    requires Inv(n, s) && s.consumer.CRead?
    ensures forall k: nat :: Enabled(n, s, PopRead(k)) <==> k == Rounds(|s.popped|, n, |s.popped| % n)
    ensures |s.popped| < |s.pushed|
    ensures var h := |s.popped|; Holds(n, s, h, s.pushed[h]) && Head(s) % n == h % n
  {
    var h, w := |s.popped|, Written(s);
    RoundsFlat(h, s.tailSeen, n);
    RoundsFlat(h, |w|, n);
    assert w[h] == s.pushed[h];
    assert Holds(n, s, h, w[h]);
    assert s.released[s.tailSeen][h % n] == Rounds(s.tailSeen, n, h % n);
    WrapNext(h, n);
  }

  lemma {:induction false} ProducerInv<T>(n: nat, s: State<T>, a: Action<T>)
    requires Inv(n, s) && Enabled(n, s, a) && (a.PushBegin? || a.PushLoad?)
    ensures Inv(n, Step(n, s, a).0)
  {
    var t, s' := |s.pushed|, Step(n, s, a).0;
    Wrap(s'.headSeen, t + 1, n);
    Wrap(s.headSeen, t + 1, n);
    WrapNext(t, n);
    SameBuffer(n, s, s');
  }

  lemma {:induction false} SameBuffer<T>(n: nat, s: State<T>, s': State<T>)
    requires Inv(n, s) && Shaped(n, s')
    requires s'.slots == s.slots && Written(s') == Written(s) && s'.tails == s.tails && s'.released == s.released
    ensures Buffer(n, s')
  {
    HistoryKept(n, s, s');
  }

  lemma {:induction false} WriteInv<T>(n: nat, s: State<T>)
    requires Inv(n, s) && s.producer.PWrite?
    ensures Inv(n, Step(n, s, PushWrite).0)
  {
    var s', t := Step(n, s, PushWrite).0, |s.pushed|;
    var w, w' := Written(s), Written(s');
    WrapNext(t, n);
    assert Tail(s) % n == t % n;
    assert w' == w + [s.producer.item];
    forall k | 0 <= k < |w'| ensures Holds(n, s', k, w'[k]) {
      assert k < t ==> Holds(n, s, k, w[k]);
    }
  }

  lemma {:induction false} PublishIndices<T>(n: nat, s: State<T>)
    requires Inv(n, s) && s.producer.PStore?
    ensures Indices(n, Step(n, s, PushPublish).0)
  {
    hide Buffer, Fifo;
    WrapNext(|s.pushed|, n);
  }

  lemma {:induction false} HistoryKept<T>(n: nat, s: State<T>, s': State<T>)
    requires Inv(n, s) && Shaped(n, s') && s'.slots == s.slots && Written(s') == Written(s)
    ensures forall k :: 0 <= k < |Written(s)| ==> Holds(n, s', k, Written(s)[k])
  {
    forall k | 0 <= k < |Written(s)| ensures Holds(n, s', k, Written(s)[k]) {
      assert Holds(n, s, k, Written(s)[k]);
    }
  }

  lemma {:induction false} PublishBuffer<T>(n: nat, s: State<T>)
    requires Inv(n, s) && s.producer.PStore?
    ensures Buffer(n, Step(n, s, PushPublish).0)
  {
    hide Indices, Fifo, Holds;
    var s' := Step(n, s, PushPublish).0;
    PublishCounts(n, s);
    assert Written(s') == Written(s);
    HistoryKept(n, s, s');
  }

  lemma {:induction false} PublishCounts<T>(n: nat, s: State<T>)
    requires Inv(n, s) && s.producer.PStore?
    ensures |s.tails| == |s.pushed| + 1
  {
  }

  lemma {:induction false} PublishFifo<T>(n: nat, s: State<T>)
    requires Inv(n, s) && s.producer.PStore?
    ensures Fifo(Step(n, s, PushPublish).0)
  {
    hide Indices, Buffer;
  }

  lemma {:induction false} PublishInv<T>(n: nat, s: State<T>)
    requires Inv(n, s) && s.producer.PStore?
    ensures Inv(n, Step(n, s, PushPublish).0)
  {
    hide Indices, Buffer, Fifo, Step, Shaped;
    PublishIndices(n, s);
    PublishBuffer(n, s);
    PublishFifo(n, s);
  }

  ghost predicate Consuming<T>(a: Action<T>) { a.PopBegin? || a.PopLoad? || a.PopRead? || a.PopPublish? }

  lemma {:induction false} ConsumerIndices<T>(n: nat, s: State<T>, a: Action<T>)
    requires Inv(n, s) && Enabled(n, s, a) && Consuming(a)
    ensures Indices(n, Step(n, s, a).0)
  {
    hide Buffer, Fifo;
    var h := |s.popped|;
    Wrap(h, Step(n, s, a).0.tailSeen, n);
    WrapNext(h, n);
  }

  lemma {:induction false} ConsumerFifo<T>(n: nat, s: State<T>, a: Action<T>)
    requires Inv(n, s) && Enabled(n, s, a) && Consuming(a)
    ensures Fifo(Step(n, s, a).0)
  {
    hide Buffer, Indices;
    if a.PopRead? {
      OneReadable(n, s);
    }
  }

  lemma {:induction false} ConsumerInv<T>(n: nat, s: State<T>, a: Action<T>)
    requires Inv(n, s) && Enabled(n, s, a) && Consuming(a)
    ensures Inv(n, Step(n, s, a).0)
  {
    hide Buffer, Indices, Fifo;
    ConsumerIndices(n, s, a);
    ConsumerFifo(n, s, a);
    SameBuffer(n, s, Step(n, s, a).0);
  }

  lemma {:induction false} StepInv<T>(n: nat, s: State<T>, a: Action<T>)
    requires Inv(n, s) && Enabled(n, s, a)
    ensures Inv(n, Step(n, s, a).0)
  {
    match a
    case PushBegin(_) => ProducerInv(n, s, a);
    case PushLoad(_) => ProducerInv(n, s, a);
    case PushWrite => WriteInv(n, s);
    case PushPublish => PublishInv(n, s);
    case _ => ConsumerInv(n, s, a);
  }

  // ---------- all runs ----------

  /** `acts` is an interleaving of accesses of the two threads that leads from s to s'. */
  ghost predicate Run<T>(n: nat, s: State<T>, acts: seq<Action<T>>, s': State<T>)
    requires Shaped(n, s)
    decreases |acts|
  {
    if acts == [] then s == s'
    else Enabled(n, s, acts[0]) && Run(n, Step(n, s, acts[0]).0, acts[1..], s')
  }

  /** A state that some interleaving leads to. */
  ghost predicate Reachable<T>(n: nat, acts: seq<Action<T>>, s: State<T>) {
    n > 0 && Run(n, Start(n), acts, s)
  }

  lemma {:induction false} ReachableInv<T>(n: nat, acts: seq<Action<T>>, s: State<T>)
    requires Reachable(n, acts, s)
    ensures Inv(n, s)
  {
    StartInv<T>(n);
    RunInv(n, Start(n), acts, s);
  }

  lemma {:induction false} RunInv<T>(n: nat, s: State<T>, acts: seq<Action<T>>, s': State<T>)
    requires Inv(n, s) && Run(n, s, acts, s')
    ensures Inv(n, s')
    decreases |acts|
  {
    if acts != [] {
      StepInv(n, s, acts[0]);
      RunInv(n, Step(n, s, acts[0]).0, acts[1..], s');
    }
  }

  /** The counters behind the wrapped indices, and what the position of each thread says about them. */
  lemma {:induction false} Counters<T>(n: nat, acts: seq<Action<T>>, s: State<T>)
    requires Reachable(n, acts, s)
    ensures Shaped(n, s) && |s.tails| == |s.pushed| + 1 && |s.heads| == |s.popped| + 1
    ensures Tail(s) == |s.pushed| % n && Head(s) == |s.popped| % n
    ensures s.popped <= s.pushed && |s.pushed| - |s.popped| <= n - 1
    ensures s.producer.PWrite? ==> |s.pushed| - |s.popped| < n - 1
    ensures s.consumer.CRead? ==> |s.popped| < |s.pushed|
  {
    ReachableInv(n, acts, s);
  }

  /** Nothing is lost, duplicated, reordered or torn, and at most capacity - 1 items are in flight. */
  lemma {:induction false} PoppedIsPrefix<T>(n: nat, acts: seq<Action<T>>, s: State<T>)
    requires Reachable(n, acts, s)
    ensures s.popped <= s.pushed && |s.pushed| - |s.popped| <= n - 1
  {
    ReachableInv(n, acts, s);
  }

  /** The slot about to be written holds no unread item, and is not the one the consumer may be reading. */
  lemma {:induction false} NoOverwrite<T>(n: nat, acts: seq<Action<T>>, s: State<T>)
    requires Reachable(n, acts, s) && Shaped(n, s)
    ensures s.producer.PWrite? ==> forall k :: |s.popped| <= k < |s.pushed| ==> k % n != Tail(s) % n
    ensures s.producer.PWrite? && s.consumer.CRead? ==> Head(s) % n != Tail(s) % n
  {
    ReachableInv(n, acts, s);
    var t := |s.pushed|;
    WrapNext(t, n);
    WrapNext(|s.popped|, n);
    if s.producer.PWrite? {
      forall k | |s.popped| <= k < t ensures k % n != Tail(s) % n {
        Residues(k, t, n);
      }
    }
  }

  lemma {:induction false} LoadedPush<T>(n: nat, s: State<T>, j: nat)
    requires Inv(n, s) && Enabled(n, s, PushLoad(j))
    ensures Step(n, s, PushLoad(j)).1 <==> |s.pushed| - j < n - 1
  {
    hide Buffer, Fifo;
    WrapNext(|s.pushed|, n);
    Wrap(j, |s.pushed| + 1, n);
  }

  lemma {:induction false} LoadedPop<T>(n: nat, s: State<T>, j: nat)
    requires Inv(n, s) && Enabled(n, s, PopLoad(j))
    ensures Step(n, s, PopLoad(j)).1 <==> j > |s.popped|
  {
    hide Buffer, Fifo;
    Wrap(|s.popped|, j, n);
  }

  /** A push that loads head_ fails exactly if the items pushed so far are n - 1 ahead of the loaded head count. With
      the newest value that is a full ring; a push that fails on a ring with room has loaded an older one. No other
      access makes a push fail. */
  lemma {:induction false} PushFails<T>(n: nat, acts: seq<Action<T>>, s: State<T>, j: nat)
    requires Reachable(n, acts, s) && Shaped(n, s) && Enabled(n, s, PushLoad(j))
    ensures Step(n, s, PushLoad(j)).1 <==> |s.pushed| - j < n - 1
    ensures j == |s.heads| - 1 ==> (Step(n, s, PushLoad(j)).1 <==> |s.pushed| - |s.popped| < n - 1)
    ensures !Step(n, s, PushLoad(j)).1 && |s.pushed| - |s.popped| < n - 1 ==> j < |s.popped| == |s.heads| - 1
  {
    ReachableInv(n, acts, s);
    LoadedPush(n, s, j);
  }

  /** A pop that loads tail_ fails exactly if the loaded tail count is not beyond the items popped so far. With the
      newest value that is an empty ring; a pop that fails on a ring with an item has loaded an older one. */
  lemma {:induction false} PopFails<T>(n: nat, acts: seq<Action<T>>, s: State<T>, j: nat)
    requires Reachable(n, acts, s) && Shaped(n, s) && Enabled(n, s, PopLoad(j))
    ensures Step(n, s, PopLoad(j)).1 <==> j > |s.popped|
    ensures j == |s.tails| - 1 ==> (Step(n, s, PopLoad(j)).1 <==> |s.pushed| > |s.popped|)
    ensures !Step(n, s, PopLoad(j)).1 && |s.pushed| > |s.popped| ==> j < |s.pushed| == |s.tails| - 1
  {
    ReachableInv(n, acts, s);
    LoadedPop(n, s, j);
  }

  ghost predicate Producing<T>(a: Action<T>) { a.PushBegin? || a.PushLoad? || a.PushWrite? || a.PushPublish? }

  /** Accesses left, at most, in the call a thread is in. */
  ghost function Left<T>(s: State<T>, producer: bool): nat {
    if producer then match s.producer { case PIdle => 0 case PLoad(_) => 3 case PWrite(_) => 2 case PStore(_) => 1 }
    else match s.consumer { case CIdle => 0 case CLoad => 3 case CRead => 2 case CStore(_) => 1 }
  }

  /** Wait-freedom: whatever the other thread did, a thread inside a call can take a step ... */
  lemma {:induction false} CanStep<T>(n: nat, acts: seq<Action<T>>, s: State<T>, producer: bool) returns (a: Action<T>)
    requires Reachable(n, acts, s) && Shaped(n, s) && Left(s, producer) > 0
    ensures Producing(a) == producer && Enabled(n, s, a)
  {
    ReachableInv(n, acts, s);
    if producer {
      a := match s.producer case PLoad(_) => PushLoad(|s.heads| - 1) case PWrite(_) => PushWrite case _ => PushPublish;
    } else if s.consumer.CRead? {
      OneReadable(n, s);
      a := PopRead(Rounds(|s.popped|, n, |s.popped| % n));
    } else {
      a := if s.consumer.CLoad? then PopLoad(|s.tails| - 1) else PopPublish;
    }
  }

  /** ... and every step it takes brings its own call closer to the end. */
  lemma {:induction false} StepsRunOut<T>(n: nat, s: State<T>, a: Action<T>)
    requires Shaped(n, s) && Enabled(n, s, a) && Left(s, Producing(a)) > 0
    ensures Left(Step(n, s, a).0, Producing(a)) < Left(s, Producing(a))
    ensures Left(Step(n, s, a).0, !Producing(a)) == Left(s, !Producing(a))
  {
    match a
    case PushLoad(_) => assert s.producer.PLoad?;
    case PopLoad(_) => assert s.consumer.CLoad?;
    case _ =>
  }

  lemma {:induction false} Extend<T>(n: nat, s0: State<T>, acts: seq<Action<T>>, s: State<T>, a: Action<T>)
    requires Shaped(n, s0) && Run(n, s0, acts, s) && Shaped(n, s) && Enabled(n, s, a)
    ensures Run(n, s0, acts + [a], Step(n, s, a).0)
    decreases |acts|
  {
    if acts == [] {
      assert Run(n, Step(n, s, a).0, [], Step(n, s, a).0);
    } else {
      Extend(n, Step(n, s0, acts[0]).0, acts[1..], s, a);
      assert (acts + [a])[1..] == acts[1..] + [a];
    }
  }

  /** The newest version of the slot in turn is the one to read, and holds the item in turn. */
  lemma {:induction false} NewestReadable<T>(n: nat, acts: seq<Action<T>>, s: State<T>)
    requires Reachable(n, acts, s) && Shaped(n, s) && s.consumer.CRead?
    ensures |s.popped| < |s.pushed|
    ensures var i := Head(s) % n;
      && i < n && s.slots[i] != [] && Last(s.slots[i]) == s.pushed[|s.popped|]
      && Enabled(n, s, PopRead(|s.slots[i]| - 1))
  {
    ReachableInv(n, acts, s);
    OneReadable(n, s);
    var i := Head(s) % n;
    var r := Rounds(|s.popped|, n, |s.popped| % n);
    assert Enabled(n, s, PopRead(r));
    assert Enabled(n, s, PopRead(|s.slots[i]| - 1));
  }
}
