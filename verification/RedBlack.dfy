/** The red-black invariants, and what each rewriting step of the two fixup loops does to them.
    `d` holds the nodes that are about to leave the tree: black leaves that already count zero. */
module RedBlack {
  import opened TreeShape

  ghost predicate IsRed<N>(t: Tree<N>) { t.Node? && t.color.Red? }

  ghost function Weight<N>(color: Color, n: N, d: set<N>): nat {
    if color.Black? && n !in d then 1 else 0
  }

  ghost function BlackHeight<N>(t: Tree<N>, d: set<N>): nat {
    if t.Leaf? then 0 else BlackHeight(t.left, d) + Weight(t.color, t.node, d)
  }

  /** Every path to a null has the same number of black nodes, those of `d` not counted. */
  ghost predicate Balanced<N>(t: Tree<N>, d: set<N>) {
    t.Leaf? || (
      && Balanced(t.left, d) && Balanced(t.right, d) && BlackHeight(t.left, d) == BlackHeight(t.right, d)
      && (t.node in d ==> t.color.Black? && t.left.Leaf? && t.right.Leaf?))
  }

  ghost predicate NoRedRed<N>(t: Tree<N>) {
    t.Leaf? || (
      && NoRedRed(t.left) && NoRedRed(t.right)
      && (t.color.Red? ==> !IsRed(t.left) && !IsRed(t.right)))
  }

  ghost predicate Tidy<N>(t: Tree<N>, d: set<N>) { Balanced(t, d) && NoRedRed(t) }

  ghost function Blacken<N>(t: Tree<N>): Tree<N> {
    if t.Leaf? then t else t.(color := Black)
  }

  ghost function Redden<N>(t: Tree<N>): Tree<N>
    requires t.Node?
  {
    t.(color := Red)
  }

  /** `c` accepts, in its hole, a tidy subtree of black height `k` whose top is red or not:
      the whole tree is then tidy, and black at the root unless the hole is the root. */
  ghost predicate Fits<N>(c: Context<N>, k: nat, red: bool, d: set<N>) {
    c.Top? || (
      && Tidy(c.sibling, d) && BlackHeight(c.sibling, d) == k && c.node !in d
      && (c.color.Red? ==> !red && !IsRed(c.sibling) && !c.up.Top?)
      && Fits(c.up, k + Weight(c.color, c.node, d), c.color.Red?, d))
  }

  lemma {:induction false} PlugTidy<N>(c: Context<N>, t: Tree<N>, d: set<N>)
    requires Tidy(t, d) && Fits(c, BlackHeight(t, d), IsRed(t), d)
    ensures Tidy(Plug(c, t), d) && (!c.Top? ==> !IsRed(Plug(c, t)))
    decreases c
  {
    if !c.Top? {
      PlugTidy(c.up, Join(c, t), d);
    }
  }

  lemma {:induction false} UnplugTidy<N>(c: Context<N>, t: Tree<N>, d: set<N>)
    requires Tidy(Plug(c, t), d) && !IsRed(Plug(c, t))
    requires t.Node? || d == {}
    ensures Tidy(t, d) && Fits(c, BlackHeight(t, d), IsRed(t), d)
    decreases c
  {
    if !c.Top? {
      UnplugTidy(c.up, Join(c, t), d);
    }
  }

  lemma {:induction false} RelaxFits<N>(c: Context<N>, k: nat, red: bool, d: set<N>)
    requires Fits(c, k, red, d)
    ensures Fits(c, k, false, d)
  {
  }

  /** The part of Fits that is about colours. */
  ghost predicate FitsColors<N>(c: Context<N>, red: bool) {
    c.Top? || (
      && NoRedRed(c.sibling) && (c.color.Red? ==> !red && !IsRed(c.sibling) && !c.up.Top?)
      && FitsColors(c.up, c.color.Red?))
  }

  lemma {:induction false} FitsColored<N>(c: Context<N>, k: nat, red: bool, d: set<N>)
    requires Fits(c, k, red, d)
    ensures FitsColors(c, red)
  {
    if !c.Top? {
      FitsColored(c.up, k + Weight(c.color, c.node, d), c.color.Red?, d);
    }
  }

  lemma {:induction false} RelaxColors<N>(c: Context<N>, red: bool)
    requires FitsColors(c, red)
    ensures FitsColors(c, false)
  {
  }

  lemma {:induction false} PlugColors<N>(c: Context<N>, t: Tree<N>)
    requires NoRedRed(t) && FitsColors(c, IsRed(t))
    ensures NoRedRed(Plug(c, t)) && (!c.Top? ==> !IsRed(Plug(c, t)))
    decreases c
  {
    if !c.Top? {
      PlugColors(c.up, Join(c, t));
    }
  }

  lemma {:induction false} UnplugColors<N>(c: Context<N>, t: Tree<N>)
    requires NoRedRed(Plug(c, t)) && !IsRed(Plug(c, t))
    ensures NoRedRed(t) && FitsColors(c, IsRed(t))
    decreases c
  {
    if !c.Top? {
      UnplugColors(c.up, Join(c, t));
    }
  }

  /** A set of leaving nodes that are not in the tree makes no difference. */
  lemma {:induction false} IgnoreTree<N>(t: Tree<N>, d: set<N>)
    requires Nodes(t) !! d
    ensures BlackHeight(t, d) == BlackHeight(t, {}) && (Balanced(t, d) <==> Balanced(t, {}))
  {
    if t.Node? {
      IgnoreTree(t.left, d);
      IgnoreTree(t.right, d);
    }
  }

  lemma {:induction false} IgnoreContext<N>(c: Context<N>, k: nat, red: bool, d: set<N>)
    requires ContextNodes(c) !! d
    ensures Fits(c, k, red, d) <==> Fits(c, k, red, {})
  {
    if !c.Top? {
      IgnoreTree(c.sibling, d);
      IgnoreContext(c.up, k + Weight(c.color, c.node, {}), c.color.Red?, d);
    }
  }

  // ---------- insertion: a red node that may have a red parent ----------

  ghost predicate Climbing<N>(c: Context<N>, t: Tree<N>) {
    IsRed(t) && Tidy(t, {}) && Fits(c, BlackHeight(t, {}), false, {})
  }

  /** Red uncle: the parent and the uncle turn black, the grandparent red. */
  lemma {:induction false} ClimbRecolor<N>(c: Context<N>, t: Tree<N>)
    requires Climbing(c, t) && !c.Top? && c.color.Red?
    requires IsRed(c.up.sibling)
    ensures var g := WithColor(WithSibling(c.up, Blacken(c.up.sibling)), Red);
      Climbing(g.up, Join(g, Blacken(Join(c, t))))
  {
    assert Fits(c.up, BlackHeight(t, {}), true, {});
    var p, u := Blacken(Join(c, t)), Blacken(c.up.sibling);
    assert Tidy(p, {}) && BlackHeight(p, {}) == BlackHeight(t, {}) + 1;
    assert Tidy(u, {}) && BlackHeight(u, {}) == BlackHeight(t, {}) + 1;
  }

  /** An inner child after the rotation at its parent: the view moves to the old parent, now an outer child. */
  ghost function Turned<N>(c: Context<N>, t: Tree<N>): Zip<N>
    requires !c.Top? && t.Node?
  {
    if c.InRight? then Zip(InLeft(t.color, t.node, t.right, c.up), Node(c.color, c.sibling, c.node, t.left))
    else Zip(InRight(t.color, t.left, t.node, c.up), Node(c.color, t.right, c.node, c.sibling))
  }

  lemma {:induction false} ClimbInner<N>(c: Context<N>, t: Tree<N>)
    requires Climbing(c, t) && !c.Top? && c.color.Red?
    ensures Climbing(Turned(c, t).context, Turned(c, t).tree)
    ensures Join(Turned(c, t).context, Turned(c, t).tree) ==
            if c.InRight? then RotateLeft(Join(c, t)) else RotateRight(Join(c, t))
  {
  }

  /** The view of an outer child after the recolouring and the rotation at its grandparent. */
  ghost function Raised<N>(c: Context<N>): Context<N>
    requires !c.Top? && !c.up.Top?
  {
    if c.InLeft? then InLeft(Black, c.node, Node(Red, c.sibling, c.up.node, c.up.sibling), c.up.up)
    else InRight(Black, Node(Red, c.up.sibling, c.up.node, c.sibling), c.node, c.up.up)
  }

  /** Outer child with a black uncle: recolouring and rotating at the grandparent ends the climb. */
  lemma {:induction false} ClimbOuter<N>(c: Context<N>, t: Tree<N>)
    requires Climbing(c, t) && !c.Top? && c.color.Red? && !IsRed(c.up.sibling)
    ensures !c.up.Top? && (c.InLeft? == c.up.InLeft? ==> Climbing(Raised(c), t))
  {
    var k := BlackHeight(t, {});
    assert Fits(c.up, k, true, {});
    assert c.up.color.Black? && Fits(c.up.up, k + 1, false, {});
    assert Tidy(Raised(c).sibling, {}) && BlackHeight(Raised(c).sibling, {}) == k;
  }

  lemma {:induction false} ClimbDone<N>(c: Context<N>, t: Tree<N>)
    requires Climbing(c, t) && (c.Top? || c.color.Black?)
    ensures Tidy(Blacken(Plug(c, t)), {}) && !IsRed(Blacken(Plug(c, t)))
  {
    if !c.Top? {
      PlugTidy(c, t, {});
    }
  }

  // ---------- deletion: a subtree that is one black short ----------

  ghost predicate Short<N>(c: Context<N>, t: Tree<N>, d: set<N>) {
    && t.Node? && Balanced(t, d) && NoRedRed(Blacken(t))
    && Fits(c, BlackHeight(t, d) + 1, false, d)
  }

  /** The sibling of a short subtree is never null, and it does not leave. */
  lemma {:induction false} ShortSibling<N>(c: Context<N>, t: Tree<N>, d: set<N>)
    requires Short(c, t, d) && !c.Top?
    ensures c.sibling.Node? && c.sibling.node !in d
  {
  }

  /** The view after a red sibling was rotated above the parent. */
  ghost function Lowered<N>(c: Context<N>): Context<N>
    requires !c.Top? && c.sibling.Node?
  {
    var w := c.sibling;
    if c.InLeft? then InLeft(Red, c.node, w.left, InLeft(Black, w.node, w.right, c.up))
    else InRight(Red, w.right, c.node, InRight(Black, w.left, w.node, c.up))
  }

  /** The parent and its children, recoloured, before that rotation. */
  ghost function Swapped<N>(c: Context<N>, t: Tree<N>): Tree<N>
    requires !c.Top?
  {
    Join(WithColor(WithSibling(c, Blacken(c.sibling)), Red), t)
  }

  /** Red sibling: after the rotation the new sibling is black and not null. */
  lemma {:induction false} ShortRedSibling<N>(c: Context<N>, t: Tree<N>, d: set<N>)
    requires Short(c, t, d) && !c.Top? && !IsRed(t) && IsRed(c.sibling)
    ensures Short(Lowered(c), t, d) && Lowered(c).sibling.Node? && Lowered(c).sibling.color.Black?
    ensures Join(Lowered(c).up, Join(Lowered(c), t)) ==
            if c.InLeft? then RotateLeft(Swapped(c, t)) else RotateRight(Swapped(c, t))
  {
    ShortSibling(c, t, d);
  }

  /** Black nephews: the sibling turns red and the shortage moves up to the parent. */
  lemma {:induction false} ShortUp<N>(c: Context<N>, t: Tree<N>, d: set<N>)
    requires Short(c, t, d) && !c.Top? && !IsRed(t) && c.sibling.Node? && c.sibling.color.Black?
    requires !IsRed(c.sibling.left) && !IsRed(c.sibling.right)
    ensures Short(c.up, Join(WithSibling(c, c.sibling.(color := Red)), t), d)
  {
    ShortSibling(c, t, d);
    var w := c.sibling.(color := Red);
    assert Tidy(w, d) && BlackHeight(w, d) == BlackHeight(t, d);
    RelaxFits(c.up, BlackHeight(t, d) + 1 + Weight(c.color, c.node, d), c.color.Red?, d);
  }

  /** Only the near nephew is red: rotate the sibling so that the far nephew is. */
  lemma {:induction false} ShortInner<N>(c: Context<N>, t: Tree<N>, d: set<N>)
    requires Short(c, t, d) && !c.Top? && !IsRed(t) && c.sibling.Node? && c.sibling.color.Black?
    ensures c.InLeft? && IsRed(c.sibling.left) && !IsRed(c.sibling.right) ==>
      Short(WithSibling(c, RotateRight(c.sibling.(color := Red, left := Blacken(c.sibling.left)))), t, d)
    ensures c.InRight? && IsRed(c.sibling.right) && !IsRed(c.sibling.left) ==>
      Short(WithSibling(c, RotateLeft(c.sibling.(color := Red, right := Blacken(c.sibling.right)))), t, d)
  {
    ShortSibling(c, t, d);
    var w := c.sibling;
    if c.InLeft? && IsRed(w.left) && !IsRed(w.right) {
      assert Tidy(w, d) && Tidy(w.left, d) && w.left.node !in d;
      var r := Node(Red, w.left.right, w.node, w.right);
      assert Tidy(r, d) && BlackHeight(r, d) == BlackHeight(t, d);
    }
    if c.InRight? && IsRed(w.right) && !IsRed(w.left) {
      assert Tidy(w, d) && Tidy(w.right, d) && w.right.node !in d;
      var l := Node(Red, w.left, w.node, w.right.left);
      assert Tidy(l, d) && BlackHeight(l, d) == BlackHeight(t, d);
    }
  }

  /** The parent and its children as the last case leaves them. */
  ghost function Settled<N>(c: Context<N>, t: Tree<N>): (r: Tree<N>)
    requires !c.Top? && c.sibling.Node?
    ensures r.Node?
  {
    var w := c.sibling;
    if c.InLeft? then RotateLeft(Node(Black, t, c.node, w.(color := c.color, right := Blacken(w.right))))
    else RotateRight(Node(Black, w.(color := c.color, left := Blacken(w.left)), c.node, t))
  }

  /** Far nephew red: recolouring and rotating at the parent makes up the shortage. */
  lemma {:induction false} ShortOuter<N>(c: Context<N>, t: Tree<N>, d: set<N>)
    requires Short(c, t, d) && !c.Top? && !IsRed(t) && c.sibling.Node? && c.sibling.color.Black?
    requires if c.InLeft? then IsRed(c.sibling.right) else IsRed(c.sibling.left)
    ensures Short(Top, Plug(c.up, Settled(c, t)), d)
  {
    ShortSibling(c, t, d);
    var s, w := Settled(c, t), c.sibling;
    if c.InLeft? {
      assert Tidy(w, d) && Tidy(w.right, d) && w.right.node !in d;
      var l, r := Node(Black, t, c.node, w.left), Blacken(w.right);
      assert Tidy(l, d) && BlackHeight(l, d) == BlackHeight(t, d) + 1;
      assert Tidy(r, d) && BlackHeight(r, d) == BlackHeight(t, d) + 1;
    } else {
      assert Tidy(w, d) && Tidy(w.left, d) && w.left.node !in d;
      var l, r := Blacken(w.left), Node(Black, w.right, c.node, t);
      assert Tidy(l, d) && BlackHeight(l, d) == BlackHeight(t, d) + 1;
      assert Tidy(r, d) && BlackHeight(r, d) == BlackHeight(t, d) + 1;
    }
    assert Tidy(s, d) && BlackHeight(s, d) == BlackHeight(t, d) + 1 + Weight(c.color, c.node, d);
    PlugTidy(c.up, s, d);
  }

  lemma {:induction false} ShortDone<N>(c: Context<N>, t: Tree<N>, d: set<N>)
    requires Short(c, t, d) && (c.Top? || IsRed(t))
    ensures Tidy(Plug(c, Blacken(t)), d) && !IsRed(Plug(c, Blacken(t)))
  {
    PlugTidy(c, Blacken(t), d);
  }

  // ---------- the height bound ----------

  ghost function Height<N>(t: Tree<N>): nat {
    if t.Leaf? then 0
    else 1 + if Height(t.left) > Height(t.right) then Height(t.left) else Height(t.right)
  }

  ghost function Pow2(n: nat): nat { if n == 0 then 1 else 2 * Pow2(n - 1) }

  lemma {:induction false} Pow2Sum(a: nat, b: nat)
    ensures Pow2(a + b) == Pow2(a) * Pow2(b)
  {
    if a > 0 {
      Pow2Sum(a - 1, b);
    }
  }

  lemma {:induction false} Pow2Monotone(a: nat, b: nat)
    requires a <= b
    ensures Pow2(a) <= Pow2(b)
    decreases b
  {
    if a < b {
      Pow2Monotone(a, b - 1);
    }
  }

  lemma {:induction false} BlackHeightBounds<N>(t: Tree<N>)
    requires Tidy(t, {})
    ensures Height(t) <= 2 * BlackHeight(t, {}) + if IsRed(t) then 1 else 0
    ensures Pow2(BlackHeight(t, {})) <= |Inorder(t)| + 1
  {
    if t.Node? {
      BlackHeightBounds(t.left);
      BlackHeightBounds(t.right);
    }
  }

  lemma {:induction false} SquareMonotone(a: nat, b: nat)
    requires a <= b
    ensures a * a <= b * b
  {
  }

  /** No path is longer than 2 * log2(n + 1). */
  lemma {:induction false} LogarithmicHeight<N>(t: Tree<N>)
    requires Tidy(t, {}) && !IsRed(t)
    ensures Pow2(Height(t)) <= (|Inorder(t)| + 1) * (|Inorder(t)| + 1)
  {
    var k, n := BlackHeight(t, {}), |Inorder(t)| + 1;
    BlackHeightBounds(t);
    Pow2Monotone(Height(t), k + k);
    Pow2Sum(k, k);
    SquareMonotone(Pow2(k), n);
  }
}
