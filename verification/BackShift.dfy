/** A repaired removal: the entries that were probed across the freed slot are shifted back into it. */
module BackShift {
  import opened ProbeTable

  /** The table while slot q is a hole: apart from the hole no path is interrupted, and of the entries whose
      path crosses the hole none is less than d steps away from it. */
  ghost predicate Shifting<K, V>(s: Table<K, V>, hash: K -> nat, m: map<K, V>, q: nat, d: nat) {
    && q < |s| && s[q].Free? && 0 < d <= |s| && Stores(s, m)
    && Distinct(s)
    && (forall i, j {:trigger OnPath(s, hash, j, i)} ::
      0 <= i < |s| && 0 <= j < |s| && s[i].Used? && OnPath(s, hash, j, i) ==> s[j].Used? || j == q)
    && (forall i {:trigger OnPath(s, hash, q, i)} :: 0 <= i < |s| && s[i].Used? && OnPath(s, hash, q, i) ==>
      Distance(q, i, |s|) >= d)
  }

  ghost function Displaced<K, V>(s: Table<K, V>, hash: K -> nat, i: nat): nat
    requires i < |s|
  {
    if s[i].Free? then 0 else Distance(Home(hash, s[i].key, |s|), i, |s|)
  }

  /** How far all entries together are from home. */
  ghost function Displacement<K, V>(s: Table<K, V>, hash: K -> nat, i: nat): nat
    requires i <= |s|
  {
    if i == 0 then 0 else Displacement(s, hash, i - 1) + Displaced(s, hash, i - 1)
  }

  lemma {:induction false} DisplacementUpdate<K, V>(s: Table<K, V>, hash: K -> nat, q: nat, e: Entry<K, V>, i: nat)
    requires q < |s| && i <= |s|
    ensures Displacement(s[q := e], hash, i) ==
            Displacement(s, hash, i) + if q < i then Displaced(s[q := e], hash, q) - Displaced(s, hash, q) else 0
  {
    if i > 0 {
      DisplacementUpdate(s, hash, q, e, i - 1);
      assert i - 1 != q ==> Displaced(s[q := e], hash, i - 1) == Displaced(s, hash, i - 1);
    }
  }

  lemma {:induction false} ShiftStart<K, V>(s: Table<K, V>, hash: K -> nat, m: map<K, V>, r: nat)
    requires Sound(s, hash) && Stores(s, m) && r < |s| && s[r].Used?
    ensures Shifting(s[r := Free], hash, m - {s[r].key}, r, 1)
  {
    var t, n := s[r := Free], m - {s[r].key};
    forall i, j | 0 <= i < |t| && 0 <= j < |t| && t[i].Used? && OnPath(t, hash, j, i) ensures t[j].Used? || j == r {
      assert OnPath(s, hash, j, i);
    }
    forall k | k in n ensures HasKey(t, k, |t|) {
      assert HasKey(s, k, |s|);
      var i :| 0 <= i < |s| && s[i].Used? && s[i].key == k;
      assert t[i].key == k;
    }
  }

  lemma {:induction false} ShiftSkip<K, V>(s: Table<K, V>, hash: K -> nat, m: map<K, V>, q: nat, d: nat, j: nat)
    requires Shifting(s, hash, m, q, d) && d < |s| && j < |s| && Distance(q, j, |s|) == d
    requires s[j].Used? && !OnPath(s, hash, q, j)
    ensures Shifting(s, hash, m, q, d + 1)
  {
  }

  lemma {:induction false} ShiftMove<K, V>(s: Table<K, V>, hash: K -> nat, m: map<K, V>, q: nat, d: nat, j: nat)
    requires Shifting(s, hash, m, q, d) && d < |s| && j < |s| && Distance(q, j, |s|) == d
    requires s[j].Used? && OnPath(s, hash, q, j)
    ensures var t := s[q := s[j]][j := Free];
      Shifting(t, hash, m, j, 1) && Displacement(t, hash, |t|) < Displacement(s, hash, |s|)
  {
    var u := s[q := s[j]];
    var t := u[j := Free];
    DisplacementUpdate(s, hash, q, s[j], |s|);
    DisplacementUpdate(u, hash, j, Free, |s|);
    forall k | k in m ensures HasKey(t, k, |t|) {
      assert HasKey(s, k, |s|);
      var i :| 0 <= i < |s| && s[i].Used? && s[i].key == k;
      assert t[if i == j then q else i].key == k;
    }
    ShiftPaths(s, hash, m, q, d, j);
  }

  lemma {:induction false} ShiftPaths<K, V>(s: Table<K, V>, hash: K -> nat, m: map<K, V>, q: nat, d: nat, j: nat)
    requires Shifting(s, hash, m, q, d) && d < |s| && j < |s| && Distance(q, j, |s|) == d
    requires s[j].Used? && OnPath(s, hash, q, j)
    ensures var t := s[q := s[j]][j := Free];
      forall i, b :: 0 <= i < |t| && 0 <= b < |t| && t[i].Used? && OnPath(t, hash, b, i) ==> t[b].Used? || b == j
  {
    var t := s[q := s[j]][j := Free];
    forall i, b | 0 <= i < |t| && 0 <= b < |t| && t[i].Used? && OnPath(t, hash, b, i) ensures t[b].Used? || b == j {
      if i == q {
        assert OnPath(s, hash, b, j);
      } else {
        assert OnPath(s, hash, b, i);
      }
    }
  }

  /** A way that crosses q and ends at least as far from q as j is crosses j, or ends there. */
  lemma {:induction false} WayCrosses(h: nat, q: nat, j: nat, i: nat, n: nat)
    requires h < n && q < n && j < n && i < n
    ensures Distance(h, q, n) < Distance(h, i, n) && Distance(q, j, n) <= Distance(q, i, n) ==>
            i == j || Distance(h, j, n) < Distance(h, i, n)
  {
  }

  /** A free slot, or a full turn, ends the shift: nothing is probed across the hole any more. */
  lemma {:induction false} ShiftDone<K, V>(s: Table<K, V>, hash: K -> nat, m: map<K, V>, q: nat, d: nat, j: nat)
    requires Shifting(s, hash, m, q, d)
    requires d == |s| || (j < |s| && Distance(q, j, |s|) == d && s[j].Free?)
    ensures Sound(s, hash)
  {
    forall i | 0 <= i < |s| && s[i].Used? ensures !OnPath(s, hash, q, i) {
      if j < |s| {
        WayCrosses(Home(hash, s[i].key, |s|), q, j, i, |s|);
        assert OnPath(s, hash, j, i) ==> s[j].Used? || j == q;
      }
    }
  }
}
