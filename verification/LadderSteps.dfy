/** What the functions on ladders do, told by position: this is how the heap operations see them. */
module LadderSteps {
  import opened Sequences
  import opened Types
  import opened Sweeps
  import opened Ladders

  lemma {:induction false} QueueIdsAt(queue: seq<Resting>, id: OrderId)
    ensures id in QueueIds(queue) <==> exists k :: 0 <= k < |queue| && queue[k].id == id
  {
    if queue != [] {
      QueueIdsAt(queue[1..], id);
      if queue[0].id != id && id in QueueIds(queue) {
        var k :| 0 <= k < |queue[1..]| && queue[1..][k].id == id;
        assert queue[k + 1].id == id;
      }
      if exists k :: 0 <= k < |queue| && queue[k].id == id {
        var k :| 0 <= k < |queue| && queue[k].id == id;
        assert k > 0 ==> queue[1..][k - 1].id == id;
      }
    }
  }

  lemma {:induction false} IdsAt(levels: seq<Level>, id: OrderId)
    ensures id in Ids(levels) <==> exists i :: 0 <= i < |levels| && id in QueueIds(levels[i].queue)
  {
    if levels != [] {
      IdsAt(levels[1..], id);
      if id !in QueueIds(levels[0].queue) && id in Ids(levels) {
        var i :| 0 <= i < |levels[1..]| && id in QueueIds(levels[1..][i].queue);
        assert id in QueueIds(levels[i + 1].queue);
      }
      if exists i :: 0 <= i < |levels| && id in QueueIds(levels[i].queue) {
        var i :| 0 <= i < |levels| && id in QueueIds(levels[i].queue);
        assert i > 0 ==> id in QueueIds(levels[1..][i - 1].queue);
      }
    }
  }

  lemma {:induction false} QueueIdCount(queue: seq<Resting>, k: nat)
    requires k < |queue|
    ensures queue[k].id in QueueIds(queue)
  {
    QueueIdsAt(queue, queue[k].id);
  }

  /** An identity that occurs once in the queue is removed where it stands. */
  lemma {:induction false} RemoveAt(queue: seq<Resting>, k: nat)
    requires k < |queue| && QueueIds(queue)[queue[k].id] <= 1
    ensures Remove(queue, queue[k].id) == Omit(queue, k)
  {
    if k > 0 {
      QueueIdCount(queue[1..], k - 1);
      RemoveAt(queue[1..], k - 1);
    }
  }

  /** The ladder without the order at place k of level i. */
  function OmitAt(levels: seq<Level>, i: nat, k: nat): seq<Level>
    requires i < |levels| && k < |levels[i].queue|
  {
    var q := Omit(levels[i].queue, k);
    if q == [] then Omit(levels, i) else levels[i := Level(levels[i].price, q)]
  }

  lemma {:induction false} OmitAtLater(levels: seq<Level>, i: nat, k: nat)
    requires 0 < i < |levels| && k < |levels[i].queue|
    ensures OmitAt(levels, i, k) == [levels[0]] + OmitAt(levels[1..], i - 1, k)
  {
  }

  /** An identity that stands at level i, and occurs once, is neither at level 0 nor twice further on. */
  lemma {:induction false} OnceLater(levels: seq<Level>, i: nat, id: OrderId)
    requires 0 < i < |levels| && id in QueueIds(levels[i].queue) && Ids(levels)[id] <= 1
    ensures id !in QueueIds(levels[0].queue) && Ids(levels[1..])[id] <= 1
  {
    IdsAt(levels[1..], id);
    assert id in QueueIds(levels[1..][i - 1].queue);
  }

  lemma {:induction false} WithoutAt(levels: seq<Level>, i: nat, k: nat, id: OrderId)
    requires i < |levels| && k < |levels[i].queue| && levels[i].queue[k].id == id && Ids(levels)[id] <= 1
    ensures Without(levels, id) == OmitAt(levels, i, k) && id in Ids(levels)
    decreases levels
  {
    if i == 0 {
      WithoutFirst(levels, k, id);
    } else {
      QueueIdCount(levels[i].queue, k);
      OnceLater(levels, i, id);
      OmitAtLater(levels, i, k);
      assert levels[1..][i - 1] == levels[i];
      WithoutAt(levels[1..], i - 1, k, id);
    }
  }

  lemma {:induction false} WithoutFirst(levels: seq<Level>, k: nat, id: OrderId)
    requires levels != [] && k < |levels[0].queue| && levels[0].queue[k].id == id && Ids(levels)[id] <= 1
    ensures Without(levels, id) == OmitAt(levels, 0, k) && id in Ids(levels)
  {
    var q := levels[0].queue;
    QueueIdCount(q, k);
    RemoveAt(q, k);
    Front(levels, Level(levels[0].price, Remove(q, id)));
  }

  lemma {:induction false} Front<T>(s: seq<T>, x: T)
    requires s != []
    ensures Omit(s, 0) == s[1..] && s[0 := x] == [x] + s[1..]
  {
  }

  /** What the heap does step by step: the level gets its shorter queue, and is dropped if that is empty. */
  lemma {:induction false} OmitAtSteps(levels: seq<Level>, i: nat, k: nat)
    requires i < |levels| && k < |levels[i].queue|
    ensures var q := Omit(levels[i].queue, k);
      var u := levels[i := Level(levels[i].price, q)];
      OmitAt(levels, i, k) == (if |levels[i].queue| == 1 then Omit(u, i) else u)
  {
  }

  /** A price that has a level: the order joins its queue. */
  lemma {:induction false} EnqueueAt(side: Side, levels: seq<Level>, i: nat, o: Resting)
    requires Sorted(side, levels) && i < |levels|
    ensures HasPrice(levels, levels[i].price)
    ensures Enqueue(side, levels, levels[i].price, o) == levels[i := Level(levels[i].price, levels[i].queue + [o])]
    decreases levels
  {
    if i > 0 {
      SortedIndexed(side, levels);
      EnqueueAt(side, levels[1..], i - 1, o);
    }
  }

  /** A level opened at place k: the order comes to stand there alone. */
  lemma {:induction false} EnqueueOpened(side: Side, levels: seq<Level>, k: nat, price: Price, o: Resting)
    requires k <= |levels| && Sorted(side, levels[..k] + [Level(price, [])] + levels[k..])
    ensures Enqueue(side, levels, price, o) == (levels[..k] + [Level(price, [])] + levels[k..])[k := Level(price, [o])]
    decreases levels
  {
    var wider := levels[..k] + [Level(price, [])] + levels[k..];
    SortedIndexed(side, wider);
    if k > 0 {
      WiderLater(levels, Level(price, []), Level(price, [o]), k);
      assert Less(side, wider[0].price, wider[k].price);
      EnqueueOpened(side, levels[1..], k - 1, price, o);
    } else if levels != [] {
      assert Less(side, wider[0].price, wider[1].price);
    }
  }

  lemma {:induction false} WiderLater<T>(s: seq<T>, x: T, y: T, k: nat)
    requires 0 < k <= |s|
    ensures var wider, more := s[..k] + [x] + s[k..], s[1..][..k - 1] + [x] + s[1..][k - 1..];
      wider != [] && wider[0] == s[0] && wider[1..] == more && wider[k := y] == [s[0]] + more[k - 1 := y]
  {
  }

  lemma {:induction false} HasPriceAt(levels: seq<Level>, price: Price)
    ensures HasPrice(levels, price) <==> exists i :: 0 <= i < |levels| && levels[i].price == price
  {
    if levels != [] {
      HasPriceAt(levels[1..], price);
      if HasPrice(levels[1..], price) {
        var i :| 0 <= i < |levels[1..]| && levels[1..][i].price == price;
        assert levels[i + 1].price == price;
      }
      if exists i :: 0 <= i < |levels| && levels[i].price == price {
        var i :| 0 <= i < |levels| && levels[i].price == price;
        assert i > 0 ==> levels[1..][i - 1].price == price;
      }
    }
  }
}
