/** The pool of preallocated slots. A slot stands for its address; a free slot stores the link to the next one. */
module ObjectPools {

  const NULL := -1

  class ObjectPool {
    const poolSize: nat
    const next: array<int>
    var freeList: int
    var available: nat
    /** The free slots in the order in which they will be handed out. */
    ghost var free: seq<int>

    ghost predicate Valid()
      reads this, next
    {
      && next.Length == poolSize && available == |free|
      && Chain(freeList, free, next[..]) && Distinct(free)
    }

    constructor (poolSize: nat)
      ensures Valid() && this.poolSize == poolSize && available == poolSize && fresh(next)
      ensures forall i :: 0 <= i < poolSize ==> free[i] == i
    {
      this.poolSize := poolSize;
      next := new int[poolSize];
      freeList := NULL;
      available := poolSize;
      free := [];
      new;
      var i := poolSize;
      while i > 0
        invariant 0 <= i <= poolSize && next.Length == poolSize && fresh(next) && available == poolSize
        invariant |free| == poolSize - i && forall k :: 0 <= k < |free| ==> free[k] == i + k
        invariant Chain(freeList, free, next[..]) && Distinct(free)
      {
        ghost var before := next[..];
        next[i - 1] := freeList;
        ChainKept(freeList, free, before, next[..]);
        freeList := i - 1;
        free := [i - 1] + free;
        i := i - 1;
      }
    }

    /** The slot at the front of the list, or NULL if the pool is exhausted. */
    method Acquire() returns (slot: int)
      requires Valid()
      modifies this
      ensures Valid()
      ensures slot == NULL <==> old(free) == []
      ensures if old(free) == [] then free == []
              else old(free) == [slot] + free && 0 <= slot < poolSize && slot !in free
    {
      if freeList == NULL {
        return NULL;
      }
      slot := freeList;
      freeList := next[slot];
      available := available - 1;
      free := free[1..];
    }

    /** Puts a slot that is in use back to the front of the list. */
    method Release(slot: int)
      requires Valid() && (slot == NULL || (0 <= slot < poolSize && slot !in free))
      modifies this, next
      ensures Valid() && free == if slot == NULL then old(free) else [slot] + old(free)
    {
      if slot == NULL {
        return;
      }
      ghost var before := next[..];
      next[slot] := freeList;
      ChainKept(freeList, free, before, next[..]);
      freeList := slot;
      available := available + 1;
      free := [slot] + free;
    }
  }

  /** From `head`, the links spell out the slots `s`. */
  ghost predicate Chain(head: int, s: seq<int>, next: seq<int>)
    decreases s
  {
    if s == [] then head == NULL
    else 0 <= s[0] < |next| && head == s[0] && Chain(next[s[0]], s[1..], next)
  }

  ghost predicate Distinct(s: seq<int>) {
    s == [] || (s[0] !in s[1..] && Distinct(s[1..]))
  }

  lemma {:induction false} ChainKept(head: int, s: seq<int>, a: seq<int>, b: seq<int>)
    requires Chain(head, s, a) && |a| == |b|
    requires forall k :: 0 <= k < |a| && k in s ==> b[k] == a[k]
    ensures Chain(head, s, b)
    decreases s
  {
    if s != [] {
      assert s[0] in s;
      ChainKept(a[s[0]], s[1..], a, b);
    }
  }

  /** Slots in use and free slots together are all slots of the pool. */
  lemma {:induction false} Partition(p: ObjectPool, used: set<int>)
    requires p.Valid() && forall k :: k in used <==> 0 <= k < p.poolSize && k !in p.free
    ensures |used| + p.available == p.poolSize
  {
    var free := ChainSlots(p.freeList, p.free, p.next[..]);
    var all := Slots(p.poolSize);
    forall k ensures (k in used <==> k in all - free) && (k in free ==> k in all) {
      assert k in free <==> k in p.free;
    }
    assert used == all - free;
    assert free <= all;
  }

  lemma {:induction false} ChainSlots(head: int, s: seq<int>, next: seq<int>) returns (slots: set<int>)
    requires Chain(head, s, next) && Distinct(s)
    ensures |slots| == |s| && forall k :: k in slots <==> k in s
    ensures forall k :: k in slots ==> 0 <= k < |next|
    decreases s
  {
    if s == [] {
      slots := {};
    } else {
      var rest := ChainSlots(next[s[0]], s[1..], next);
      slots := {s[0]} + rest;
      assert forall k :: k in s <==> k == s[0] || k in s[1..];
    }
  }

  lemma {:induction false} Slots(n: nat) returns (slots: set<int>)
    ensures |slots| == n && forall k :: k in slots <==> 0 <= k < n
  {
    if n == 0 {
      slots := {};
    } else {
      var rest := Slots(n - 1);
      slots := rest + {n - 1};
    }
  }
}
