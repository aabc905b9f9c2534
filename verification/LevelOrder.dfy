/** Sequences of price levels in the order of a side. The predicates are recursive rather than quantified,
    so that they only unfold where a lemma asks for it. */
module LevelOrder {
  import opened Sequences
  import opened Types
  import opened Levels
  import opened TreeShape

  ghost predicate Ordered(side: Side, s: seq<PriceLevel>) {
    |s| < 2 || (Less(side, s[0].price, s[1].price) && Ordered(side, s[1..]))
  }

  ghost predicate Pairwise(side: Side, s: seq<PriceLevel>) {
    forall i, j :: 0 <= i < j < |s| ==> Less(side, s[i].price, s[j].price)
  }

  lemma {:induction false} OrderedPairwise(side: Side, s: seq<PriceLevel>)
    ensures Ordered(side, s) <==> Pairwise(side, s)
  {
    if |s| >= 2 {
      OrderedPairwise(side, s[1..]);
      if Ordered(side, s) {
        forall i, j | 0 <= i < j < |s| ensures Less(side, s[i].price, s[j].price) {
          assert j > 1 ==> Less(side, s[1..][0].price, s[1..][j - 1].price);
          assert i > 0 ==> Less(side, s[1..][i - 1].price, s[1..][j - 1].price);
        }
      }
      if Pairwise(side, s) {
        forall i, j | 0 <= i < j < |s[1..]| ensures Less(side, s[1..][i].price, s[1..][j].price) {
          assert Less(side, s[i + 1].price, s[j + 1].price);
        }
      }
    }
  }

  ghost function Elements(s: seq<PriceLevel>): set<PriceLevel> {
    if s == [] then {} else {s[0]} + Elements(s[1..])
  }

  lemma {:induction false} ElementsMember(s: seq<PriceLevel>)
    ensures forall n :: n in Elements(s) <==> n in s
  {
    if s != [] {
      ElementsMember(s[1..]);
    }
  }

  lemma {:induction false} ElementsAt(s: seq<PriceLevel>, i: nat)
    requires i < |s|
    ensures s[i] in Elements(s)
  {
    ElementsMember(s);
  }

  lemma {:induction false} ElementsAppend(a: seq<PriceLevel>, b: seq<PriceLevel>)
    ensures Elements(a + b) == Elements(a) + Elements(b)
  {
    if a == [] {
      assert a + b == b;
    } else {
      ElementsAppend(a[1..], b);
      assert (a + b)[1..] == a[1..] + b;
    }
  }

  lemma {:induction false} InorderElements(t: Tree<PriceLevel>)
    ensures Nodes(t) == Elements(Inorder(t))
  {
    if t.Node? {
      InorderElements(t.left);
      InorderElements(t.right);
      ElementsAppend(Inorder(t.left), [t.node]);
      ElementsAppend(Inorder(t.left) + [t.node], Inorder(t.right));
      assert Elements([t.node]) == {t.node};
    }
  }

  ghost predicate Absent(nodes: set<PriceLevel>, key: Price) {
    forall n :: n in nodes ==> n.price != key
  }

  /** The element before position i comes before the key, the one at j after it. */
  ghost predicate Between(side: Side, s: seq<PriceLevel>, i: int, j: int, key: Price) {
    0 <= i <= j <= |s| && (i > 0 ==> Less(side, s[i - 1].price, key)) && (j < |s| ==> Less(side, key, s[j].price))
  }

  lemma {:induction false} BetweenAbsent(side: Side, s: seq<PriceLevel>, k: nat, key: Price)
    requires Ordered(side, s) && Between(side, s, k, k, key)
    ensures Absent(Elements(s), key)
  {
    OrderedPairwise(side, s);
    forall i | 0 <= i < |s| ensures s[i].price != key {
      assert i < k - 1 ==> Less(side, s[i].price, s[k - 1].price);
      assert i > k ==> Less(side, s[k].price, s[i].price);
    }
    NoneAbsent(s, key);
  }

  lemma {:induction false} NoneAbsent(s: seq<PriceLevel>, key: Price)
    requires forall i :: 0 <= i < |s| ==> s[i].price != key
    ensures Absent(Elements(s), key)
  {
    if s != [] {
      NoneAbsent(s[1..], key);
    }
  }

  lemma {:induction false} OrderedInsert(side: Side, s: seq<PriceLevel>, k: nat, n: PriceLevel)
    requires Ordered(side, s) && Between(side, s, k, k, n.price)
    ensures Ordered(side, s[..k] + [n] + s[k..])
  {
    var t := s[..k] + [n] + s[k..];
    OrderedPairwise(side, s);
    forall i, j | 0 <= i < j < |t| ensures Less(side, t[i].price, t[j].price) {
      var i', j' := if i < k then i else i - 1, if j < k then j else j - 1;
      assert i != k ==> t[i] == s[i'];
      assert j != k ==> t[j] == s[j'];
      assert k > 0 && i < k - 1 ==> Less(side, s[i].price, s[k - 1].price);
      assert j > k + 1 ==> Less(side, s[k].price, s[j'].price);
    }
    OrderedPairwise(side, t);
  }

  lemma {:induction false} ElementsInsert(s: seq<PriceLevel>, k: nat, n: PriceLevel)
    requires k <= |s|
    ensures Elements(s[..k] + [n] + s[k..]) == Elements(s) + {n}
  {
    ElementsAppend(s[..k], s[k..]);
    ElementsAppend(s[..k] + [n], s[k..]);
    ElementsAppend(s[..k], [n]);
    assert s == s[..k] + s[k..];
    assert Elements([n]) == {n};
  }

  /** An element of an ordered sequence occurs once. */
  lemma {:induction false} OrderedIndex(side: Side, s: seq<PriceLevel>, i: nat, j: nat)
    requires Ordered(side, s) && i < |s| && j < |s| && s[i] == s[j]
    ensures i == j
  {
    OrderedPairwise(side, s);
  }

  lemma {:induction false} OrderedOmit(side: Side, s: seq<PriceLevel>, i: nat)
    requires Ordered(side, s) && i < |s|
    ensures Ordered(side, Omit(s, i))
  {
    hide Ordered;
    var r := Omit(s, i);
    OrderedPairwise(side, s);
    forall j, k | 0 <= j < k < |r| ensures Less(side, r[j].price, r[k].price) {
      var j', k' := if j < i then j else j + 1, if k < i then k else k + 1;
      assert r[j] == s[j'] && r[k] == s[k'];
    }
    OrderedPairwise(side, r);
  }

  lemma {:induction false} OmittedAbsent(side: Side, s: seq<PriceLevel>, i: nat)
    requires Ordered(side, s) && i < |s|
    ensures s[i] !in Elements(Omit(s, i))
  {
    hide Ordered;
    var r := Omit(s, i);
    ElementsMember(r);
    if s[i] in r {
      var j :| 0 <= j < |r| && r[j] == s[i];
      OrderedIndex(side, s, i, if j < i then j else j + 1);
    }
  }

  lemma {:induction false} ElementsSplit(s: seq<PriceLevel>, i: nat)
    requires i < |s|
    ensures Elements(s) == Elements(Omit(s, i)) + {s[i]}
  {
    ElementsAppend(s[..i], s[i + 1..]);
    ElementsAppend(s[..i] + [s[i]], s[i + 1..]);
    ElementsAppend(s[..i], [s[i]]);
    assert s == s[..i] + [s[i]] + s[i + 1..];
    assert Elements([s[i]]) == {s[i]};
  }

  lemma {:induction false} OrderedRemove(side: Side, s: seq<PriceLevel>, i: nat)
    requires Ordered(side, s) && i < |s|
    ensures Ordered(side, Omit(s, i))
    ensures Elements(Omit(s, i)) == Elements(s) - {s[i]} && s[i] in Elements(s)
  {
    hide *;
    OrderedOmit(side, s, i);
    OmittedAbsent(side, s, i);
    ElementsSplit(s, i);
  }
}
