/** The queue itself, called from one thread at a time. Each call is a run of the protocol in which every
    load returns the newest value, so all that holds for the protocol holds here. */
module SpscQueues {
  import opened Types
  import opened Options
  import opened SpscProtocol
  import opened SpscInvariant

  class SpscQueue<T(0)> {
    const capacity: nat
    const buffer: array<T>
    var tail: nat
    var headCache: nat
    var head: nat
    var tailCache: nat
    ghost var state: State<T>
    ghost var history: seq<Action<T>>

    ghost predicate Valid()
      reads this, buffer
    {
      Tied() && state.producer.PIdle? && state.consumer.CIdle?
    }

    /** The fields are those of a protocol state that the accesses in `history` lead to. */
    ghost predicate Tied()
      reads this, buffer
    {
      && capacity > 0 && buffer.Length == capacity
      && Reachable(capacity, history, state) && Shaped(capacity, state)
      && tail == Tail(state) && head == Head(state)
      && headCache == state.headCache && tailCache == state.tailCache
      && state.popped <= state.pushed && |state.pushed| - |state.popped| <= capacity - 1
      && forall i :: 0 <= i < capacity && state.slots[i] != [] ==> buffer[i] == Last(state.slots[i])
    }

    ghost function Contents(): seq<T>
      requires state.popped <= state.pushed
      reads this
    {
      state.pushed[|state.popped|..]
    }

    constructor (capacity: nat)
      requires capacity > 0
      ensures Valid() && Contents() == [] && this.capacity == capacity && fresh(buffer)
    {
      this.capacity := capacity;
      buffer := new T[capacity];
      tail, headCache, head, tailCache := 0, 0, 0, 0;
      state, history := Start(capacity), [];
    }

    /** One access of the protocol. */
    ghost method Access(a: Action<T>)
      requires Reachable(capacity, history, state) && Shaped(capacity, state) && Enabled(capacity, state, a)
      modifies this`state, this`history
      ensures state == Step(capacity, old(state), a).0 && Shaped(capacity, state)
      ensures Reachable(capacity, history, state) && history == old(history) + [a]
      ensures state.popped <= state.pushed && |state.pushed| - |state.popped| <= capacity - 1
    {
      Extend(capacity, Start(capacity), history, state, a);
      state := Step(capacity, state, a).0;
      history := history + [a];
      Counters(capacity, history, state);
    }

    method Push(item: T) returns (ok: bool)
      requires Valid()
      modifies this, buffer
      ensures Valid() && ok == (|old(Contents())| < capacity - 1)
      ensures Contents() == if ok then old(Contents()) + [item] else old(Contents())
      ensures old(history) <= history
    {
      ok := Reserve(item);
      if ok {
        Publish(item);
      }
    }

    /** Whether there is room: the cached head decides, and is loaded again if it says no. */
    method Reserve(item: T) returns (ok: bool)
      requires Valid()
      modifies this
      ensures Tied() && old(history) <= history && state.consumer.CIdle?
      ensures state.pushed == old(state.pushed) && state.popped == old(state.popped)
      ensures state.producer == if ok then PWrite(item) else PIdle
      ensures ok == (|state.pushed| - |state.popped| < capacity - 1)
    {
      var nextTail := (tail + 1) % capacity;
      Access(PushBegin(item));
      if nextTail == headCache {
        PushFails(capacity, history, state, |state.heads| - 1);
        headCache := head;
        Access(PushLoad(|state.heads| - 1));
        if nextTail == headCache {
          return false;
        }
      }
      Counters(capacity, history, state);
      ok := true;
    }

    method Publish(item: T)
      requires Tied() && state.producer == PWrite(item)
      modifies this, buffer
      ensures Tied() && old(history) <= history && state.producer.PIdle? && state.consumer == old(state.consumer)
      ensures state.pushed == old(state.pushed) + [item] && state.popped == old(state.popped)
    {
      Counters(capacity, history, state);
      WrapNext(|state.pushed|, capacity);
      buffer[tail % capacity] := item;
      Access(PushWrite);
      tail := (tail + 1) % capacity;
      Access(PushPublish);
    }

    /** Returns the oldest item, or none if the queue is empty. */
    method Pop() returns (r: Option<T>)
      requires Valid()
      modifies this
      ensures Valid() && old(history) <= history
      ensures if r.Some? then old(Contents()) == [r.value] + Contents() else old(Contents()) == [] == Contents()
    {
      var ok := Await();
      if !ok {
        return None;
      }
      var item := Take();
      r := Some(item);
    }

    /** Whether there is an item: the cached tail decides, and is loaded again if it says no. */
    method Await() returns (ok: bool)
      requires Valid()
      modifies this
      ensures Tied() && old(history) <= history && state.producer.PIdle?
      ensures state.pushed == old(state.pushed) && state.popped == old(state.popped)
      ensures state.consumer == if ok then CRead else CIdle
      ensures ok == (|state.pushed| > |state.popped|)
    {
      Access(PopBegin);
      ok := true;
      if head == tailCache {
        ok := LoadTail();
      }
      Counters(capacity, history, state);
    }

    method LoadTail() returns (ok: bool)
      requires Tied() && state.consumer.CLoad?
      modifies this
      ensures Tied() && old(history) <= history && state.producer == old(state.producer)
      ensures state.pushed == old(state.pushed) && state.popped == old(state.popped)
      ensures state.consumer == if ok then CRead else CIdle
      ensures ok == (|state.pushed| > |state.popped|)
    {
      PopFails(capacity, history, state, |state.tails| - 1);
      tailCache := tail;
      Access(PopLoad(|state.tails| - 1));
      ok := head != tailCache;
    }

    method Take() returns (item: T)
      requires Tied() && state.consumer.CRead?
      modifies this
      ensures Tied() && old(history) <= history && state.producer == old(state.producer) && state.consumer.CIdle?
      ensures state.pushed == old(state.pushed) && state.popped == old(state.popped) + [item]
    {
      NewestReadable(capacity, history, state);
      item := buffer[head % capacity];
      Access(PopRead(|state.slots[head % capacity]| - 1));
      head := (head + 1) % capacity;
      Access(PopPublish);
    }

    /** Pushes items in order until one does not fit, at most batchSize of them. */
    method PushBulk(items: seq<T>, batchSize: nat) returns (count: nat)
      requires Valid()
      modifies this, buffer
      ensures Valid() && count <= |items|
      ensures Contents() == old(Contents()) + items[..count]
      ensures count == Min(Min(|items|, batchSize), capacity - 1 - |old(Contents())|)
    {
      hide Reachable, Shaped, Tail, Head, Last;
      count := 0;
      while count < |items| && count < batchSize
        invariant Valid() && count <= |items| && count <= batchSize
        invariant Contents() == old(Contents()) + items[..count]
        invariant count <= capacity - 1 - |old(Contents())|
      {
        var ok := Push(items[count]);
        if !ok {
          break;
        }
        Snoc(old(Contents()), items, count);
        count := count + 1;
      }
    }
  }

  lemma Snoc<T>(s: seq<T>, items: seq<T>, k: nat)
    requires k < |items|
    ensures s + items[..k] + [items[k]] == s + items[..k + 1]
  {
  }
}
