/** The open-addressing table: linear probing from a home slot, over any hash function. */
module ProbeTable {
  import opened Options

  datatype Entry<K, V> = Free | Used(key: K, value: V)

  type Table<K, V> = seq<Entry<K, V>>

  /** The slot a key is probed from. The capacity is a power of two in the source, where the remainder is a mask. */
  function Home<K>(hash: K -> nat, key: K, n: nat): (i: nat)
    requires n > 0
    ensures i < n
  {
    hash(key) % n
  }

  /** Steps from slot a to slot b, going up and around. */
  function Distance(a: nat, b: nat, n: nat): (d: nat)
    requires a < n && b < n
    ensures d < n && (d == 0 <==> a == b)
  {
    if a <= b then b - a else b + n - a
  }

  function After(i: nat, n: nat): (j: nat)
    requires i < n
    ensures j < n
  {
    (i + 1) % n
  }

  lemma {:induction false} AfterIs(i: nat, n: nat)
    requires i < n
    ensures After(i, n) == if i + 1 == n then 0 else i + 1
  {
  }

  /** What the probing loop finds from slot i in at most `left` probes: the slot of the key, if any. */
  ghost function Probe<K, V>(s: Table<K, V>, key: K, i: nat, left: nat): Option<nat>
    requires i < |s|
    decreases left
  {
    if left == 0 || s[i].Free? then None
    else if s[i].key == key then Some(i)
    else Probe(s, key, After(i, |s|), left - 1)
  }

  ghost function Lookup<K, V>(s: Table<K, V>, hash: K -> nat, key: K): Option<nat>
    requires |s| > 0
  {
    Probe(s, key, Home(hash, key, |s|), |s|)
  }

  /** What the probing loop of insert finds from slot i in at most `left` probes: the slot of the key or the first
      free slot, whichever comes first. */
  ghost function Vacancy<K, V>(s: Table<K, V>, key: K, i: nat, left: nat): Option<nat>
    requires i < |s|
    decreases left
  {
    if left == 0 then None
    else if s[i].Free? || s[i].key == key then Some(i)
    else Vacancy(s, key, After(i, |s|), left - 1)
  }

  ghost function Room<K, V>(s: Table<K, V>, hash: K -> nat, key: K): Option<nat>
    requires |s| > 0
  {
    Vacancy(s, key, Home(hash, key, |s|), |s|)
  }

  /** How many of the first n slots are used. */
  ghost function Occupied<K, V>(s: Table<K, V>, n: nat): (r: nat)
    requires n <= |s|
    ensures r <= n
  {
    if n == 0 then 0 else Occupied(s, n - 1) + if s[n - 1].Used? then 1 else 0
  }

  lemma {:induction false} OccupiedUpdate<K, V>(s: Table<K, V>, i: nat, e: Entry<K, V>, n: nat)
    requires i < |s| && n <= |s|
    ensures Occupied(s[i := e], n) + (if i < n && s[i].Used? then 1 else 0)
         == Occupied(s, n) + (if i < n && e.Used? then 1 else 0)
  {
    if n > 0 {
      OccupiedUpdate(s, i, e, n - 1);
    }
  }

  lemma {:induction false} NothingOccupied<K, V>(s: Table<K, V>, n: nat)
    requires n <= |s| && forall i :: 0 <= i < n ==> s[i].Free?
    ensures Occupied(s, n) == 0
  {
    if n > 0 {
      NothingOccupied(s, n - 1);
    }
  }

  /** Slot j is probed before slot i on the way from the home of the key in slot i. */
  ghost predicate OnPath<K, V>(s: Table<K, V>, hash: K -> nat, j: nat, i: nat)
    requires i < |s| && j < |s| && s[i].Used?
  {
    var h := Home(hash, s[i].key, |s|);
    Distance(h, j, |s|) < Distance(h, i, |s|)
  }

  ghost predicate Distinct<K, V>(s: Table<K, V>) {
    forall i, j :: 0 <= i < j < |s| && s[i].Used? && s[j].Used? ==> s[i].key != s[j].key
  }

  /** Every key is stored once, and no free slot interrupts the way from its home to it. */
  ghost predicate Sound<K, V>(s: Table<K, V>, hash: K -> nat) {
    && |s| > 0 && Distinct(s)
    && (forall i, j {:trigger OnPath(s, hash, j, i)} ::
      0 <= i < |s| && 0 <= j < |s| && s[i].Used? && OnPath(s, hash, j, i) ==> s[j].Used?)
  }

  /** The key is in one of the first n slots. */
  ghost predicate HasKey<K, V>(s: Table<K, V>, key: K, n: nat)
    requires n <= |s|
  {
    exists i :: 0 <= i < n && s[i].Used? && s[i].key == key
  }

  /** The table stores the map. */
  ghost predicate Stores<K, V>(s: Table<K, V>, m: map<K, V>) {
    && (forall i :: 0 <= i < |s| && s[i].Used? ==> s[i].key in m && m[s[i].key] == s[i].value)
    && (forall k :: k in m ==> HasKey(s, k, |s|))
  }

  /** From slot a, all slots before i are used by other keys. */
  lemma {:induction false} ProbeReaches<K, V>(s: Table<K, V>, key: K, a: nat, i: nat, left: nat)
    requires a < |s| && i < |s| && Distance(a, i, |s|) < left
    requires forall j :: 0 <= j < |s| && Distance(a, j, |s|) < Distance(a, i, |s|) ==> s[j].Used? && s[j].key != key
    ensures Probe(s, key, a, left) == if s[i].Free? then None else if s[i].key == key then Some(i)
                                       else Probe(s, key, After(i, |s|), left - 1 - Distance(a, i, |s|))
    decreases left
  {
    if a != i {
      assert Distance(a, a, |s|) < Distance(a, i, |s|);
      AfterIs(a, |s|);
      ProbeReaches(s, key, After(a, |s|), i, left - 1);
    }
  }

  /** Insert stops at the first slot, from its start, that is free or holds the key. */
  lemma {:induction false} VacancyFirst<K, V>(s: Table<K, V>, key: K, a: nat, left: nat)
    requires a < |s| && left <= |s|
    ensures match Vacancy(s, key, a, left)
      case None => forall j :: 0 <= j < |s| && Distance(a, j, |s|) < left ==> s[j].Used? && s[j].key != key
      case Some(i) =>
        && i < |s| && (s[i].Free? || s[i].key == key)
        && forall j :: 0 <= j < |s| && Distance(a, j, |s|) < Distance(a, i, |s|) ==> s[j].Used? && s[j].key != key
    decreases left
  {
    if left > 0 && s[a].Used? && s[a].key != key {
      AfterIs(a, |s|);
      var b := After(a, |s|);
      VacancyFirst(s, key, b, left - 1);
      forall j | 0 <= j < |s| && j != a ensures Distance(a, j, |s|) == Distance(b, j, |s|) + 1 {
      }
      if left < |s| {
        assert Distance(b, a, |s|) == |s| - 1;
      }
    }
  }

  /** Find and insert probe alike: they part only where insert stops at a free slot. */
  lemma {:induction false} VacancyProbe<K, V>(s: Table<K, V>, key: K, a: nat, left: nat)
    requires a < |s|
    ensures var r := Vacancy(s, key, a, left);
      && (r.Some? ==> r.value < |s| && (s[r.value].Free? || s[r.value].key == key))
      && Probe(s, key, a, left) == if r.Some? && s[r.value].Used? then r else None
    decreases left
  {
    if left > 0 && s[a].Used? && s[a].key != key {
      VacancyProbe(s, key, After(a, |s|), left - 1);
    }
  }

  /** Insert stores a key a second time exactly if the key is stored where find does not reach it. */
  lemma {:induction false} InsertDuplicates<K, V>(s: Table<K, V>, hash: K -> nat, key: K, value: V)
    requires |s| > 0 && Distinct(s) && Room(s, hash, key).Some?
    ensures Room(s, hash, key).value < |s|
    ensures Distinct(s[Room(s, hash, key).value := Used(key, value)]) <==>
            (HasKey(s, key, |s|) ==> Lookup(s, hash, key).Some?)
  {
    VacancyProbe(s, key, Home(hash, key, |s|), |s|);
    var i := Room(s, hash, key).value;
    var t := s[i := Used(key, value)];
    if s[i].Used? {
      assert HasKey(s, key, |s|);
      assert Distinct(t) by {
        forall a, b | 0 <= a < b < |t| && t[a].Used? && t[b].Used? ensures t[a].key != t[b].key {
          assert s[a].key != s[b].key;
        }
      }
    } else if HasKey(s, key, |s|) {
      var j :| 0 <= j < |s| && s[j].Used? && s[j].key == key;
      assert t[i].Used? && t[j].Used? && t[i].key == t[j].key && (i < j || j < i);
    } else {
      assert Distinct(t) by {
        forall a, b | 0 <= a < b < |t| && t[a].Used? && t[b].Used? ensures t[a].key != t[b].key {
          assert a != i ==> t[a] == s[a] && s[a].key != key;
          assert b != i ==> t[b] == s[b] && s[b].key != key;
        }
      }
    }
  }

  lemma {:induction false} ProbeMissing<K, V>(s: Table<K, V>, key: K, a: nat, left: nat)
    requires a < |s|
    requires forall i :: 0 <= i < |s| && s[i].Used? ==> s[i].key != key
    ensures Probe(s, key, a, left) == None
    decreases left
  {
    if left > 0 && s[a].Used? {
      ProbeMissing(s, key, After(a, |s|), left - 1);
    }
  }

  lemma {:induction false} LookupPresent<K, V>(s: Table<K, V>, hash: K -> nat, i: nat)
    requires Sound(s, hash) && i < |s| && s[i].Used?
    ensures Lookup(s, hash, s[i].key) == Some(i)
  {
    var h := Home(hash, s[i].key, |s|);
    forall j | 0 <= j < |s| && Distance(h, j, |s|) < Distance(h, i, |s|) ensures s[j].Used? && s[j].key != s[i].key {
      assert OnPath(s, hash, j, i);
      assert i != j;
    }
    ProbeReaches(s, s[i].key, h, i, |s|);
  }

  /** On a sound table the loop is the lookup of the stored map. */
  lemma {:induction false} LookupMap<K, V>(s: Table<K, V>, hash: K -> nat, m: map<K, V>, key: K)
    requires Sound(s, hash) && Stores(s, m)
    ensures match Lookup(s, hash, key)
      case None => key !in m
      case Some(i) => i < |s| && s[i].Used? && s[i].key == key && key in m && m[key] == s[i].value
  {
    if key in m {
      assert HasKey(s, key, |s|);
      var i :| 0 <= i < |s| && s[i].Used? && s[i].key == key;
      LookupPresent(s, hash, i);
    } else {
      ProbeMissing(s, key, Home(hash, key, |s|), |s|);
    }
  }

  /** Freeing slot r, as remove does, hides another key exactly if r lies on the way from its home to its slot. */
  lemma {:induction false} FreeHides<K, V>(s: Table<K, V>, hash: K -> nat, r: nat, i: nat)
    requires Sound(s, hash) && r < |s| && s[r].Used? && i < |s| && s[i].Used? && i != r
    ensures Lookup(s[r := Free], hash, s[i].key) == if OnPath(s, hash, r, i) then None else Some(i)
  {
    var t, n, key := s[r := Free], |s|, s[i].key;
    var h := Home(hash, key, n);
    var e := if OnPath(s, hash, r, i) then r else i;
    forall j | 0 <= j < n && Distance(h, j, n) < Distance(h, e, n) ensures t[j].Used? && t[j].key != key {
      assert OnPath(s, hash, j, i);
      assert j != i && j != r;
    }
    ProbeReaches(t, key, h, e, n);
  }

  /** A removed or absent key is not found afterwards. */
  lemma {:induction false} FreeForgets<K, V>(s: Table<K, V>, hash: K -> nat, r: nat, key: K)
    requires Sound(s, hash) && r < |s| && s[r].Used?
    requires key == s[r].key || forall i :: 0 <= i < |s| && s[i].Used? ==> s[i].key != key
    ensures Lookup(s[r := Free], hash, key) == None
  {
    ProbeMissing(s[r := Free], key, Home(hash, key, |s|), |s|);
  }

  /** Freeing slot r keeps the table sound exactly if no other key is probed across it. */
  lemma {:induction false} FreeSound<K, V>(s: Table<K, V>, hash: K -> nat, r: nat)
    requires Sound(s, hash) && r < |s| && s[r].Used?
    ensures Sound(s[r := Free], hash) <==> forall i :: 0 <= i < |s| && i != r && s[i].Used? ==> !OnPath(s, hash, r, i)
  {
    var t := s[r := Free];
    forall i, j | 0 <= i < |s| && 0 <= j < |s| && i != r && s[i].Used?
      ensures OnPath(t, hash, j, i) <==> OnPath(s, hash, j, i)
    {
    }
  }

  /** Two keys with one home: removing the first makes the second unfindable although it is still stored. */
  lemma {:induction false} FreeLosesAKey()
    ensures var s: Table<int, int> := [Used(1, 10), Used(2, 20), Free, Free];
      var hash := (k: int) => 0;
      && Sound(s, hash) && Lookup(s, hash, 2) == Some(1)
      && Lookup(s[0 := Free], hash, 2) == None && s[0 := Free][1].Used?
      && Room(s[0 := Free], hash, 2) == Some(0)
  {
    var s: Table<int, int> := [Used(1, 10), Used(2, 20), Free, Free];
    var hash := (k: int) => 0;
    LookupPresent(s, hash, 1);
    FreeHides(s, hash, 0, 1);
  }

  lemma {:induction false} Placed<K, V>(s: Table<K, V>, hash: K -> nat, m: map<K, V>, i: nat, key: K, value: V)
    requires Sound(s, hash) && Stores(s, m) && i < |s| && s[i].Free? && key !in m
    requires var h := Home(hash, key, |s|);
      forall j :: 0 <= j < |s| && Distance(h, j, |s|) < Distance(h, i, |s|) ==> s[j].Used?
    ensures Sound(s[i := Used(key, value)], hash) && Stores(s[i := Used(key, value)], m[key := value])
  {
    var t := s[i := Used(key, value)];
    forall a, b | 0 <= a < |t| && 0 <= b < |t| && t[a].Used? && OnPath(t, hash, b, a) ensures t[b].Used? {
      assert a != i ==> OnPath(s, hash, b, a);
    }
    forall k | k in m[key := value] ensures HasKey(t, k, |t|) {
      if k == key {
        assert t[i].key == k;
      } else {
        assert HasKey(s, k, |s|);
        var a :| 0 <= a < |s| && s[a].Used? && s[a].key == k;
        assert t[a].key == k;
      }
    }
  }

  lemma {:induction false} Overwritten<K, V>(s: Table<K, V>, hash: K -> nat, m: map<K, V>, i: nat, value: V)
    requires Sound(s, hash) && Stores(s, m) && i < |s| && s[i].Used?
    ensures Sound(s[i := Used(s[i].key, value)], hash) && Stores(s[i := Used(s[i].key, value)], m[s[i].key := value])
  {
    var t, key := s[i := Used(s[i].key, value)], s[i].key;
    forall a, b | 0 <= a < |t| && 0 <= b < |t| && t[a].Used? && OnPath(t, hash, b, a) ensures t[b].Used? {
      assert OnPath(s, hash, b, a);
    }
    forall k | k in m[key := value] ensures HasKey(t, k, |t|) {
      if k != key {
        assert HasKey(s, k, |s|);
        var a :| 0 <= a < |s| && s[a].Used? && s[a].key == k;
        assert t[a].key == k;
      } else {
        assert t[i].key == k;
      }
    }
  }

  // ---------- how many keys fit ----------

  lemma {:induction false} HasKeyNext<K, V>(s: Table<K, V>, k: K, i: nat)
    requires 0 < i <= |s|
    ensures HasKey(s, k, i) <==> HasKey(s, k, i - 1) || (s[i - 1].Used? && s[i - 1].key == k)
  {
    if HasKey(s, k, i) {
      var j :| 0 <= j < i && s[j].Used? && s[j].key == k;
      assert j < i - 1 ==> HasKey(s, k, i - 1);
    }
  }

  lemma {:induction false} LastKeyNew<K, V>(s: Table<K, V>, i: nat)
    requires Distinct(s) && 0 < i <= |s| && s[i - 1].Used?
    ensures !HasKey(s, s[i - 1].key, i - 1)
  {
  }

  /** The keys in the first i slots, and how many slots hold them. */
  lemma {:induction false} KeysUpTo<K, V>(s: Table<K, V>, i: nat) returns (keys: set<K>)
    requires Distinct(s) && i <= |s|
    ensures forall k :: k in keys <==> HasKey(s, k, i)
    ensures |keys| == Occupied(s, i)
  {
    hide Distinct, HasKey;
    if i == 0 {
      keys := {};
      forall k: K ensures !HasKey(s, k, 0) {
        NoKeys(s, k);
      }
    } else {
      keys := KeysUpTo(s, i - 1);
      forall k: K ensures HasKey(s, k, i) <==> HasKey(s, k, i - 1) || (s[i - 1].Used? && s[i - 1].key == k) {
        HasKeyNext(s, k, i);
      }
      if s[i - 1].Used? {
        LastKeyNew(s, i);
        keys := keys + {s[i - 1].key};
      }
    }
  }

  lemma {:induction false} NoKeys<K, V>(s: Table<K, V>, k: K)
    ensures !HasKey(s, k, 0)
  {
  }

  lemma {:induction false} OccupiedAll<K, V>(s: Table<K, V>, n: nat)
    requires n <= |s|
    ensures Occupied(s, n) == n <==> forall j :: 0 <= j < n ==> s[j].Used?
  {
    if n > 0 {
      OccupiedAll(s, n - 1);
    }
  }

  /** The map has as many keys as slots are used, and fills the table exactly if no slot is free. */
  lemma {:induction false} Capacity<K, V>(s: Table<K, V>, hash: K -> nat, m: map<K, V>)
    requires Sound(s, hash) && Stores(s, m)
    ensures |m| == Occupied(s, |s|) <= |s|
    ensures |m| == |s| <==> forall i :: 0 <= i < |s| ==> s[i].Used?
  {
    var keys := KeysUpTo(s, |s|);
    OccupiedAll(s, |s|);
    assert keys == m.Keys;
    assert |m| == |m.Keys|;
  }
}
