/** The hash map over its array of entries. */
module FlatHashMaps {
  import opened Options
  import opened ProbeTable
  import opened BackShift

  class FlatHashMap<K(==), V> {
    const capacity: nat
    const hash: K -> nat
    const entries: array<Entry<K, V>>
    var size: nat
    ghost var contents: map<K, V>

    ghost predicate Shaped()
      reads this
    {
      capacity > 0 && entries.Length == capacity
    }

    /** The size is the number of used slots. Every operation keeps this on any table. */
    ghost predicate Counted()
      reads this, entries
    {
      Shaped() && size == Occupied(entries[..], capacity)
    }

    /** The table is sound and stores `contents`. */
    ghost predicate Valid()
      reads this, entries
    {
      Counted() && Sound(entries[..], hash) && Stores(entries[..], contents) && size == |contents|
    }

    lemma {:induction false} ValidCounted()
      requires Valid()
      ensures Counted()
    {
    }

    constructor (capacity: nat, hash: K -> nat)
      requires capacity > 0
      ensures Valid() && contents == map[] && this.capacity == capacity && this.hash == hash && fresh(entries)
    {
      this.capacity, this.hash := capacity, hash;
      entries := new Entry<K, V>[capacity](_ => Free);
      size := 0;
      contents := map[];
      new;
      NothingOccupied(entries[..], capacity);
    }

    /** The probing loop of find and remove, on any table whatsoever. */
    method FindSlot(key: K) returns (r: Option<nat>)
      requires Shaped()
      ensures r == Lookup(entries[..], hash, key)
      ensures r.Some? ==> r.value < capacity && entries[r.value].Used? && entries[r.value].key == key
    {
      var idx: nat := hash(key) % capacity;
      var probe: nat := 0;
      while probe < capacity && entries[idx].Used?
        invariant idx < capacity && probe <= capacity
        invariant Lookup(entries[..], hash, key) == Probe(entries[..], key, idx, capacity - probe)
      {
        if entries[idx].key == key {
          return Some(idx);
        }
        idx := (idx + 1) % capacity;
        probe := probe + 1;
      }
      return None;
    }

    method Find(key: K) returns (r: Option<V>)
      requires Shaped()
      ensures match Lookup(entries[..], hash, key)
        case None => r == None
        case Some(i) => i < capacity && entries[i].Used? && entries[i].key == key && r == Some(entries[i].value)
      ensures Valid() ==> r == if key in contents then Some(contents[key]) else None
    {
      var slot := FindSlot(key);
      if Valid() {
        LookupMap(entries[..], hash, contents, key);
      }
      if slot.Some? {
        r := Some(entries[slot.value].value);
      } else {
        r := None;
      }
    }

    /** The probing loop of insert, on any table: the slot of the key, else the first free slot, else none. */
    method FindRoom(key: K) returns (r: Option<nat>)
      requires Shaped()
      ensures r == Room(entries[..], hash, key)
      ensures match r
        case None => forall j :: 0 <= j < capacity ==> entries[j].Used? && entries[j].key != key
        case Some(i) =>
          && i < capacity && (entries[i].Used? ==> entries[i].key == key)
          && forall j :: 0 <= j < capacity && Sooner(key, j, i) ==> entries[j].Used? && entries[j].key != key
    {
      var idx: nat := hash(key) % capacity;
      var probe: nat := 0;
      VacancyFirst(entries[..], key, idx, capacity);
      while probe < capacity
        invariant idx < capacity && probe <= capacity
        invariant Room(entries[..], hash, key) == Vacancy(entries[..], key, idx, capacity - probe)
      {
        if entries[idx].Free? || entries[idx].key == key {
          return Some(idx);
        }
        idx := (idx + 1) % capacity;
        probe := probe + 1;
      }
      return None;
    }

    /** Slot j is probed before slot i for this key. */
    ghost predicate Sooner(key: K, j: nat, i: nat)
      requires capacity > 0 && j < capacity && i < capacity
    {
      Distance(Home(hash, key, capacity), j, capacity) < Distance(Home(hash, key, capacity), i, capacity)
    }

    /** On any table, writes the slot where the probing stops. On a sound one that is map update. */
    method Insert(key: K, value: V) returns (ok: bool)
      requires Counted()
      modifies this, entries
      ensures Counted() && ok == old(Room(entries[..], hash, key)).Some?
      ensures match old(Room(entries[..], hash, key))
        case None => entries[..] == old(entries[..]) && size == old(size)
        case Some(i) => i < capacity && entries[..] == old(entries[..])[i := Used(key, value)]
      ensures old(Valid()) ==> Valid() && ok == (key in old(contents) || |old(contents)| < capacity)
      ensures old(Valid()) ==> contents == if ok then old(contents)[key := value] else old(contents)
    {
      ghost var s := entries[..];
      var r := FindRoom(key);
      if Valid() {
        InsertedMap(r, key, value);
      }
      if r.None? {
        return false;
      }
      OccupiedUpdate(s, r.value, Used(key, value), capacity);
      if entries[r.value].Free? {
        size := size + 1;
      }
      entries[r.value] := Used(key, value);
      assert entries[..] == s[r.value := Used(key, value)];
      contents := contents[key := value];
      ok := true;
    }

    /** What the write of insert means for a sound table. */
    lemma {:induction false} InsertedMap(r: Option<nat>, key: K, value: V)
      requires Valid() && r == Room(entries[..], hash, key)
      ensures r.Some? <==> key in contents || |contents| < capacity
      ensures r.Some? ==>
        && r.value < capacity && (entries[r.value].Free? <==> key !in contents)
        && var t := entries[..][r.value := Used(key, value)];
        Sound(t, hash) && Stores(t, contents[key := value])
    {
      var s, home := entries[..], Home(hash, key, capacity);
      VacancyFirst(s, key, home, capacity);
      VacancyProbe(s, key, home, capacity);
      LookupMap(s, hash, contents, key);
      Capacity(s, hash, contents);
      if r.Some? {
        if entries[r.value].Free? {
          Placed(s, hash, contents, r.value, key, value);
        } else {
          Overwritten(s, hash, contents, r.value, value);
        }
      }
    }

    /** remove, as it is written: the slot that find reaches is freed and nothing else is touched. */
    method Remove(key: K) returns (removed: bool)
      requires Counted()
      modifies this, entries
      ensures Counted() && removed == old(Lookup(entries[..], hash, key)).Some?
      ensures match old(Lookup(entries[..], hash, key))
        case None => entries[..] == old(entries[..]) && contents == old(contents)
        case Some(i) => i < capacity && entries[..] == old(entries[..])[i := Free]
      ensures old(Valid()) ==> removed == (key in old(contents))
      ensures old(Valid()) && Sound(entries[..], hash) ==> Valid() && contents == old(contents) - {key}
    {
      var r := FindSlot(key);
      ghost var s := entries[..];
      if Valid() {
        LookupMap(s, hash, contents, key);
        assert contents - {key} == if key in contents then contents - {key} else contents;
      }
      if r.None? {
        return false;
      }
      if Valid() {
        ShiftStart(s, hash, contents, r.value);
      }
      OccupiedUpdate(s, r.value, Free, capacity);
      entries[r.value] := Free;
      size := size - 1;
      contents := contents - {key};
      assert entries[..] == s[r.value := Free];
      removed := true;
    }

    /** Repair, not in the source: remove with back-shift deletion. */
    method RemoveShift(key: K) returns (removed: bool)
      requires Valid()
      modifies this, entries
      ensures Valid() && removed == (key in old(contents)) && contents == old(contents) - {key}
    {
      var r := FindSlot(key);
      LookupMap(entries[..], hash, contents, key);
      if r.None? {
        assert contents == contents - {key};
        return false;
      }
      ShiftStart(entries[..], hash, contents, r.value);
      OccupiedUpdate(entries[..], r.value, Free, capacity);
      var hole := r.value;
      ghost var s := entries[..];
      entries[hole] := Free;
      assert entries[..] == s[hole := Free];
      contents := contents - {key};
      size := size - 1;
      CloseHole(hole);
      removed := true;
    }

    method CloseHole(hole0: nat)
      requires Shaped() && Shifting(entries[..], hash, contents, hole0, 1)
      modifies entries
      ensures Sound(entries[..], hash) && Stores(entries[..], contents)
      ensures Occupied(entries[..], capacity) == old(Occupied(entries[..], capacity))
    {
      var hole: nat, d: nat := hole0, 1;
      var j: nat := (hole + 1) % capacity;
      AfterIs(hole, capacity);
      while d < capacity && entries[j].Used?
        invariant Shifting(entries[..], hash, contents, hole, d)
        invariant Occupied(entries[..], capacity) == old(Occupied(entries[..], capacity))
        invariant j < capacity && (d < capacity ==> Distance(hole, j, capacity) == d)
        decreases Displacement(entries[..], hash, capacity), capacity - d
      {
        hole, d := ShiftStep(hole, d, j);
        AfterIs(j, capacity);
        j := (j + 1) % capacity;
        d := d + 1;
      }
      ShiftDone(entries[..], hash, contents, hole, d, j);
    }

    /** The entry in slot j moves into the hole if it was probed across it, and leaves a hole of its own. */
    method ShiftStep(hole: nat, d: nat, j: nat) returns (hole': nat, d': nat)
      requires Shaped() && Shifting(entries[..], hash, contents, hole, d)
      requires d < capacity && j < capacity && Distance(hole, j, capacity) == d && entries[j].Used?
      modifies entries
      ensures Shifting(entries[..], hash, contents, hole', d' + 1) && d' < capacity
      ensures if d' == d then hole' == hole && entries[..] == old(entries[..]) else d' == 0 && hole' == j
      ensures Occupied(entries[..], capacity) == old(Occupied(entries[..], capacity))
      ensures d' == 0 ==> Displacement(entries[..], hash, capacity) < old(Displacement(entries[..], hash, capacity))
    {
      ghost var s := entries[..];
      var home := hash(entries[j].key) % capacity;
      if Distance(home, hole, capacity) < Distance(home, j, capacity) {
        ShiftMove(s, hash, contents, hole, d, j);
        OccupiedUpdate(s, hole, s[j], capacity);
        OccupiedUpdate(s[hole := s[j]], j, Free, capacity);
        entries[hole] := entries[j];
        entries[j] := Free;
        assert entries[..] == s[hole := s[j]][j := Free];
        hole', d' := j, 0;
      } else {
        ShiftSkip(s, hash, contents, hole, d, j);
        hole', d' := hole, d;
      }
    }

    method Clear()
      requires Shaped()
      modifies this, entries
      ensures Valid() && contents == map[]
    {
      for i := 0 to capacity
        invariant Shaped() && forall j :: 0 <= j < i ==> entries[j].Free?
      {
        entries[i] := Free;
      }
      size := 0;
      contents := map[];
      NothingOccupied(entries[..], capacity);
    }
  }
}
