/** The two fixup loops, and insertion and removal around them, as functions on tree values. They are defined on
    every tree without two red nodes in a row and with a black root, so also on the trees that removal leaves
    with unequal black heights; the lemmas say what is kept on all of them and what on red-black trees only. */
module Rebalance {
  import opened TreeShape
  import opened RedBlack
  import opened Splice

  // ---------- insertion ----------

  /** A red node above which the colours are in order, but for its parent, which may be red too. */
  ghost predicate ClimbColors<N>(c: Context<N>, t: Tree<N>) {
    IsRed(t) && NoRedRed(t) && FitsColors(c, false)
  }

  lemma {:induction false} ClimbingColors<N>(c: Context<N>, t: Tree<N>)
    requires Climbing(c, t)
    ensures ClimbColors(c, t)
  {
    FitsColored(c, BlackHeight(t, {}), false, {});
  }

  ghost function Remaining<N>(c: Context<N>): nat {
    if c.Top? || c.color.Black? then 0 else Depth(c)
  }

  /** One round of the insertion loop, below a red parent. */
  ghost function ClimbTurn<N>(c: Context<N>, t: Tree<N>): (z: Zip<N>)
    requires t.Node? && !c.Top? && !c.up.Top?
    ensures z.tree.Node?
  {
    if IsRed(c.up.sibling) then
      var g := WithColor(WithSibling(c.up, Blacken(c.up.sibling)), Red);
      Zip(g.up, Join(g, Blacken(Join(c, t))))
    else if c.InLeft? == c.up.InLeft? then Zip(Raised(c), t)
    else Zip(Raised(Turned(c, t).context), Turned(c, t).tree)
  }

  lemma {:induction false} ClimbTurnColors<N>(c: Context<N>, t: Tree<N>)
    requires ClimbColors(c, t) && !c.Top? && c.color.Red?
    ensures !c.up.Top?
    ensures var z := ClimbTurn(c, t); ClimbColors(z.context, z.tree) && Remaining(z.context) < Remaining(c)
  {
    assert FitsColors(c.up, true);
    assert c.up.color.Black? && FitsColors(c.up.up, false);
    assert Depth(c) == 2 + Depth(c.up.up);
  }

  lemma {:induction false} ClimbTurnTidy<N>(c: Context<N>, t: Tree<N>)
    requires Climbing(c, t) && !c.Top? && c.color.Red?
    ensures !c.up.Top?
    ensures var z := ClimbTurn(c, t); Climbing(z.context, z.tree)
  {
    if IsRed(c.up.sibling) {
      ClimbRecolor(c, t);
    } else if c.InLeft? == c.up.InLeft? {
      ClimbOuter(c, t);
    } else {
      ClimbInner(c, t);
      ClimbOuter(Turned(c, t).context, Turned(c, t).tree);
    }
  }

  /** The tree at the end of the insertion loop, its root blackened. */
  ghost function Climbed<N>(c: Context<N>, t: Tree<N>): Tree<N>
    requires ClimbColors(c, t)
    decreases Remaining(c)
  {
    if c.Top? || c.color.Black? then Blacken(Plug(c, t))
    else
      ClimbTurnColors(c, t);
      Climbed(ClimbTurn(c, t).context, ClimbTurn(c, t).tree)
  }

  lemma {:induction false} ClimbedColors<N>(c: Context<N>, t: Tree<N>)
    requires ClimbColors(c, t)
    ensures NoRedRed(Climbed(c, t)) && !IsRed(Climbed(c, t))
    decreases Remaining(c)
  {
    if c.Top? || c.color.Black? {
      if !c.Top? {
        PlugColors(c, t);
      }
    } else {
      ClimbTurnColors(c, t);
      ClimbedColors(ClimbTurn(c, t).context, ClimbTurn(c, t).tree);
    }
  }

  lemma {:induction false} ClimbedTidy<N>(c: Context<N>, t: Tree<N>)
    requires Climbing(c, t)
    ensures ClimbColors(c, t) && Tidy(Climbed(c, t), {}) && !IsRed(Climbed(c, t))
    decreases Remaining(c)
  {
    ClimbingColors(c, t);
    if c.Top? || c.color.Black? {
      ClimbDone(c, t);
    } else {
      ClimbTurnColors(c, t);
      ClimbTurnTidy(c, t);
      ClimbedTidy(ClimbTurn(c, t).context, ClimbTurn(c, t).tree);
    }
  }

  // ---------- deletion ----------

  /** What the deletion loop keeps of the colours: the top of `t` may be red below a red parent. */
  ghost predicate ShortColors<N>(c: Context<N>, t: Tree<N>) {
    t.Node? && NoRedRed(Blacken(t)) && FitsColors(c, false)
  }

  lemma {:induction false} ShortenedColors<N>(c: Context<N>, t: Tree<N>, d: set<N>)
    requires Short(c, t, d)
    ensures ShortColors(c, t)
  {
    FitsColored(c, BlackHeight(t, d) + 1, false, d);
  }

  ghost function Distance<N>(c: Context<N>, t: Tree<N>): nat {
    if IsRed(t) then 0 else Depth(c)
  }

  ghost predicate NoRedChild<N>(w: Tree<N>)
    requires w.Node?
  {
    !IsRed(w.left) && !IsRed(w.right)
  }

  /** The child of the sibling on the side of the hole, and the one on the far side. */
  ghost function Near<N>(c: Context<N>): Tree<N>
    requires !c.Top? && c.sibling.Node?
  {
    if c.InLeft? then c.sibling.left else c.sibling.right
  }

  ghost function Far<N>(c: Context<N>): Tree<N>
    requires !c.Top? && c.sibling.Node?
  {
    if c.InLeft? then c.sibling.right else c.sibling.left
  }

  /** The deletion loop, standing at a black node in the hole of `c`, will read the colour or a child of a null
      sibling. The nearest place above that stops the loop decides: the sibling there is missing, or it is red
      and has no child on the side of the hole. */
  ghost predicate Blocked<N>(c: Context<N>)
    decreases c
  {
    !c.Top? && (
      || c.sibling.Leaf?
      || (IsRed(c.sibling) && Near(c).Leaf?)
      || (!IsRed(c.sibling) && NoRedChild(c.sibling) && c.color.Black? && Blocked(c.up)))
  }

  ghost predicate Stuck<N>(c: Context<N>, t: Tree<N>) { !IsRed(t) && Blocked(c) }

  /** The two sibling reads of one round of the deletion loop find a node. */
  ghost predicate CanTurn<N>(c: Context<N>) {
    !c.Top? && c.sibling.Node? && (IsRed(c.sibling) ==> Near(c).Node?)
  }

  /** The black sibling rotated so that its red child is the far one. */
  ghost function FarRed<N>(c: Context<N>): (b: Context<N>)
    requires !c.Top? && c.sibling.Node? && Near(c).Node?
    ensures !b.Top? && b.sibling.Node?
  {
    var w := c.sibling;
    if c.InLeft? then WithSibling(c, RotateRight(Node(Red, Blacken(w.left), w.node, w.right)))
    else WithSibling(c, RotateLeft(Node(Red, w.left, w.node, Blacken(w.right))))
  }

  /** One round below a black sibling. */
  ghost function Compensated<N>(c: Context<N>, t: Tree<N>): (z: Zip<N>)
    requires t.Node? && !c.Top? && c.sibling.Node?
    ensures z.tree.Node?
  {
    if NoRedChild(c.sibling) then Zip(c.up, Join(WithSibling(c, Redden(c.sibling)), t))
    else Zip(Top, Plug(c.up, Settled(if IsRed(Far(c)) then c else FarRed(c), t)))
  }

  /** One round of the deletion loop. */
  ghost function RepairTurn<N>(c: Context<N>, t: Tree<N>): (z: Zip<N>)
    requires t.Node? && CanTurn(c)
    ensures z.tree.Node?
  {
    Compensated(if IsRed(c.sibling) then Lowered(c) else c, t)
  }

  lemma {:induction false} LoweredColors<N>(c: Context<N>, t: Tree<N>)
    requires ShortColors(c, t) && !IsRed(t) && CanTurn(c) && IsRed(c.sibling)
    ensures ShortColors(Lowered(c), t) && Lowered(c).sibling == Near(c) && !IsRed(Near(c))
  {
  }

  lemma {:induction false} SettledColors<N>(c: Context<N>, t: Tree<N>)
    requires ShortColors(c, t) && !IsRed(t) && !c.Top? && c.sibling.Node? && IsRed(Far(c))
    ensures ShortColors(Top, Plug(c.up, Settled(c, t))) && !IsRed(Plug(c.up, Settled(c, t)))
  {
    var s, w := Settled(c, t), c.sibling;
    assert Blacken(t) == t && !IsRed(w) && NoRedRed(w.left) && NoRedRed(w.right);
    assert IsRed(s) == c.color.Red?;
    assert NoRedRed(s.left) && NoRedRed(s.right) && !IsRed(s.left) && !IsRed(s.right);
    PlugColors(c.up, s);
  }

  lemma {:induction false} CompensatedColors<N>(c: Context<N>, t: Tree<N>)
    requires ShortColors(c, t) && !IsRed(t) && !c.Top? && c.sibling.Node? && !IsRed(c.sibling)
    ensures var z := Compensated(c, t);
      && ShortColors(z.context, z.tree)
      && (z.context.Top? || (z.context == c.up && NoRedChild(c.sibling) && IsRed(z.tree) == c.color.Red?))
  {
    if NoRedChild(c.sibling) {
      RelaxColors(c.up, c.color.Red?);
    } else if IsRed(Far(c)) {
      SettledColors(c, t);
    } else {
      var w := c.sibling;
      assert NoRedRed(w.left) && NoRedRed(w.right) && IsRed(Near(c)) && NoRedChild(Near(c));
      assert NoRedRed(Near(c).left) && NoRedRed(Near(c).right);
      assert NoRedRed(FarRed(c).sibling.left) && NoRedRed(FarRed(c).sibling.right);
      SettledColors(FarRed(c), t);
    }
  }

  lemma {:induction false} RepairTurnColors<N>(c: Context<N>, t: Tree<N>)
    requires ShortColors(c, t) && !IsRed(t) && CanTurn(c)
    ensures var z := RepairTurn(c, t);
      && ShortColors(z.context, z.tree) && Distance(z.context, z.tree) < Distance(c, t)
      && (Stuck(z.context, z.tree) <==> Stuck(c, t))
  {
    if IsRed(c.sibling) {
      LoweredColors(c, t);
      CompensatedColors(Lowered(c), t);
    } else {
      CompensatedColors(c, t);
    }
  }

  lemma {:induction false} CompensatedTidy<N>(c: Context<N>, t: Tree<N>, d: set<N>)
    requires Short(c, t, d) && !IsRed(t) && !c.Top? && c.sibling.Node? && !IsRed(c.sibling)
    ensures var z := Compensated(c, t); Short(z.context, z.tree, d)
  {
    if NoRedChild(c.sibling) {
      ShortUp(c, t, d);
    } else if IsRed(Far(c)) {
      ShortOuter(c, t, d);
    } else {
      ShortInner(c, t, d);
      ShortOuter(FarRed(c), t, d);
    }
  }

  lemma {:induction false} RepairTurnTidy<N>(c: Context<N>, t: Tree<N>, d: set<N>)
    requires Short(c, t, d) && !c.Top? && !IsRed(t)
    ensures CanTurn(c)
    ensures var z := RepairTurn(c, t); Short(z.context, z.tree, d)
  {
    ShortSibling(c, t, d);
    if IsRed(c.sibling) {
      ShortRedSibling(c, t, d);
      CompensatedTidy(Lowered(c), t, d);
    } else {
      CompensatedTidy(c, t, d);
    }
  }

  /** The tree at the end of the deletion loop, where it reads no null. */
  ghost function Repaired<N>(c: Context<N>, t: Tree<N>): Tree<N>
    requires ShortColors(c, t) && !Stuck(c, t)
    decreases Distance(c, t)
  {
    if c.Top? || IsRed(t) then Plug(c, Blacken(t))
    else
      RepairTurnColors(c, t);
      Repaired(RepairTurn(c, t).context, RepairTurn(c, t).tree)
  }

  lemma {:induction false} RepairedColors<N>(c: Context<N>, t: Tree<N>)
    requires ShortColors(c, t) && !Stuck(c, t)
    ensures NoRedRed(Repaired(c, t)) && !IsRed(Repaired(c, t))
    decreases Distance(c, t)
  {
    if c.Top? || IsRed(t) {
      PlugColors(c, Blacken(t));
    } else {
      RepairTurnColors(c, t);
      RepairedColors(RepairTurn(c, t).context, RepairTurn(c, t).tree);
    }
  }

  /** In a tree that is red-black but for one black too few in the hole, the loop reads no null, and the end
      is a red-black tree. */
  lemma {:induction false} RepairedTidy<N>(c: Context<N>, t: Tree<N>, d: set<N>)
    requires Short(c, t, d)
    ensures ShortColors(c, t) && !Stuck(c, t)
    ensures Tidy(Repaired(c, t), d) && !IsRed(Repaired(c, t))
    decreases Distance(c, t)
  {
    ShortenedColors(c, t, d);
    if c.Top? || IsRed(t) {
      ShortDone(c, t, d);
    } else {
      RepairTurnTidy(c, t, d);
      RepairTurnColors(c, t);
      RepairedTidy(RepairTurn(c, t).context, RepairTurn(c, t).tree, d);
    }
  }

  lemma {:induction false} NeverStuck<N>(c: Context<N>, t: Tree<N>)
    requires ShortColors(c, t)
    ensures forall d :: Short(c, t, d) ==> !Stuck(c, t) && Tidy(Repaired(c, t), d)
  {
    forall d | Short(c, t, d) ensures !Stuck(c, t) && Tidy(Repaired(c, t), d) {
      RepairedTidy(c, t, d);
    }
  }

  // ---------- whole insertions and removals, by position ----------

  /** The place where a new node at position `k` of the in-order sequence hangs. */
  ghost function HoleAt<N>(c: Context<N>, t: Tree<N>, k: nat): (h: Context<N>)
    requires k <= |Inorder(t)|
    ensures Plug(h, Leaf) == Plug(c, t)
    decreases t
  {
    if t.Leaf? then c
    else if k <= |Inorder(t.left)| then HoleAt(InLeft(t.color, t.node, t.right, c), t.left, k)
    else HoleAt(InRight(t.color, t.left, t.node, c), t.right, k - |Inorder(t.left)| - 1)
  }

  /** The view at position `i` of the in-order sequence. */
  ghost function NodeAt<N>(c: Context<N>, t: Tree<N>, i: nat): (z: Zip<N>)
    requires i < |Inorder(t)|
    ensures z.tree.Node? && Plug(z.context, z.tree) == Plug(c, t)
    decreases t
  {
    if i < |Inorder(t.left)| then NodeAt(InLeft(t.color, t.node, t.right, c), t.left, i)
    else if i == |Inorder(t.left)| then Zip(c, t)
    else NodeAt(InRight(t.color, t.left, t.node, c), t.right, i - |Inorder(t.left)| - 1)
  }

  lemma {:induction false} HoleBelow<N>(c: Context<N>, t: Tree<N>, k: nat)
    requires k <= |Inorder(t)|
    ensures |Before(c)| + k <= |Inorder(Plug(c, t))|
    ensures HoleAt(Top, Plug(c, t), |Before(c)| + k) == HoleAt(c, t, k)
    decreases c
  {
    if !c.Top? {
      HoleBelow(c.up, Join(c, t), if c.InLeft? then k else |Inorder(c.sibling)| + 1 + k);
    }
  }

  lemma {:induction false} NodeBelow<N>(c: Context<N>, t: Tree<N>, i: nat)
    requires i < |Inorder(t)|
    ensures |Before(c)| + i < |Inorder(Plug(c, t))|
    ensures NodeAt(Top, Plug(c, t), |Before(c)| + i) == NodeAt(c, t, i)
    decreases c
  {
    if !c.Top? {
      NodeBelow(c.up, Join(c, t), if c.InLeft? then i else |Inorder(c.sibling)| + 1 + i);
    }
  }

  /** No two red nodes in a row, and a black root: what every insertion and removal keeps. */
  ghost predicate Colored<N>(t: Tree<N>) { NoRedRed(t) && !IsRed(t) }

  /** The tree after a new node was put in at position `k`. */
  ghost function Insertion<N>(t: Tree<N>, k: nat, n: N): Tree<N>
    requires Colored(t) && k <= |Inorder(t)|
  {
    UnplugColors(HoleAt(Top, t, k), Leaf);
    Climbed(HoleAt(Top, t, k), Node(Red, Leaf, n, Leaf))
  }

  ghost function CutAt<N>(t: Tree<N>, i: nat): Cut<N>
    requires i < |Inorder(t)|
  {
    CutTop(NodeAt(Top, t, i).context, NodeAt(Top, t, i).tree)
  }

  /** The deletion loop runs, and reads a null sibling: the lost node was black, it left a black child behind,
      and the loop is blocked above it. */
  ghost predicate CutFails<N>(cut: Cut<N>) {
    cut.color.Black? && cut.rest.Node? && Stuck(cut.hole, cut.rest)
  }

  lemma {:induction false} CutColors<N>(c: Context<N>, t: Tree<N>)
    requires t.Node? && Colored(Plug(c, t))
    ensures var cut := CutTop(c, t);
      && NoRedRed(cut.rest) && FitsColors(cut.hole, false)
      && (cut.color.Red? ==> FitsColors(cut.hole, IsRed(cut.rest)))
      && (cut.color.Red? ==> !cut.hole.Top?)
      && (cut.rest.Node? ==> ShortColors(cut.hole, cut.rest))
  {
    UnplugColors(c, t);
    if t.left.Node? && t.right.Node? {
      var m := Leftmost(Top, t.right);
      var c0 := InRight(t.color, t.left, t.node, c);
      LeftmostGraft(Top, c0, t.right);
      GraftPlug(m.context, c0, m.tree);
      UnplugColors(Graft(m.context, c0), m.tree);
      GraftColors(m.context, t.color, t.left, t.node, m.tree.node, c, IsRed(m.tree));
      RelaxColors(CutTop(c, t).hole, IsRed(m.tree));
    } else {
      RelaxColors(c, IsRed(t));
    }
  }

  /** Which node stands in a context does not matter for its colours. */
  lemma {:induction false} GraftColors<N>(sp: Context<N>, color: Color, l: Tree<N>, a: N, b: N, c: Context<N>,
      red: bool)
    requires FitsColors(Graft(sp, InRight(color, l, a, c)), red)
    ensures FitsColors(Graft(sp, InRight(color, l, b, c)), red)
    ensures !Graft(sp, InRight(color, l, b, c)).Top?
    decreases sp
  {
    if !sp.Top? {
      GraftColors(sp.up, color, l, a, b, c, sp.color.Red?);
    }
  }

  /** What remove makes of the cut. */
  ghost function Rejoined<N>(cut: Cut<N>): Tree<N>
    requires cut.rest.Node? ==> ShortColors(cut.hole, cut.rest)
    requires !CutFails(cut)
  {
    if cut.color.Black? && cut.rest.Node? then Blacken(Repaired(cut.hole, cut.rest))
    else Blacken(Plug(cut.hole, cut.rest))
  }

  /** Removing the node at position `i` reads a null sibling. */
  ghost predicate RemovalFails<N>(t: Tree<N>, i: nat)
    requires i < |Inorder(t)|
  {
    CutFails(CutAt(t, i))
  }

  /** The tree after the node at position `i` was removed. */
  ghost function Removal<N>(t: Tree<N>, i: nat): Tree<N>
    requires Colored(t) && i < |Inorder(t)| && !RemovalFails(t, i)
  {
    CutColors(NodeAt(Top, t, i).context, NodeAt(Top, t, i).tree);
    Rejoined(CutAt(t, i))
  }

  lemma {:induction false} RejoinedColors<N>(c: Context<N>, t: Tree<N>)
    requires t.Node? && Colored(Plug(c, t)) && !CutFails(CutTop(c, t))
    ensures CutTop(c, t).rest.Node? ==> ShortColors(CutTop(c, t).hole, CutTop(c, t).rest)
    ensures Colored(Rejoined(CutTop(c, t)))
  {
    CutColors(c, t);
    var cut := CutTop(c, t);
    if cut.color.Black? && cut.rest.Node? {
      RepairedColors(cut.hole, cut.rest);
    } else {
      PlugColors(cut.hole, cut.rest);
    }
  }

  /** In a red-black tree no removal fails. */
  lemma {:induction false} RemovalSafe<N>(t: Tree<N>, i: nat)
    requires Tidy(t, {}) && !IsRed(t) && i < |Inorder(t)|
    ensures !RemovalFails(t, i)
  {
    var z := NodeAt(Top, t, i);
    CutTidy(z.context, z.tree);
  }

  /** On a red-black tree remove reads no null, and the result is red-black exactly if no black leaf is unlinked. */
  lemma {:induction false} RemovalBalance<N>(c: Context<N>, t: Tree<N>)
    requires t.Node? && Colored(Plug(c, t))
    ensures CutTop(c, t).rest.Node? ==> ShortColors(CutTop(c, t).hole, CutTop(c, t).rest)
    ensures Balanced(Plug(c, t), {}) ==>
      && !CutFails(CutTop(c, t))
      && (Balanced(Rejoined(CutTop(c, t)), {}) <==> !LosesBlack(c, t))
      && (LosesBlack(c, t) ==>
          Rejoined(CutTop(c, t)) == Plug(CutTop(c, t).hole, Leaf) && Fits(CutTop(c, t).hole, 1, false, {}))
  {
    CutColors(c, t);
    if Balanced(Plug(c, t), {}) {
      CutTidy(c, t);
      CutBalance(c, t);
      assert Rejoined(CutTop(c, t)) == AfterCut(CutTop(c, t));
    }
  }

  // ---------- a run that reads a null sibling ----------

  ghost function B(l: Tree<int>, n: int, r: Tree<int>): Tree<int> { Node(Black, l, n, r) }
  ghost function R(l: Tree<int>, n: int, r: Tree<int>): Tree<int> { Node(Red, l, n, r) }

  /** The trees of 1, 2 and 4 and of 1, 2, 6, 7 and 8 that the run below passes through. */
  ghost function Leaning(): Tree<int> { B(B(R(Leaf, 1, Leaf), 2, Leaf), 4, Leaf) }
  ghost function Uneven(): Tree<int> { B(B(B(R(Leaf, 1, Leaf), 2, Leaf), 6, Leaf), 7, B(Leaf, 8, Leaf)) }

  /** From the empty tree, insert 4, 3, 2 and 1, and remove 3. */
  lemma {:induction false} RunLeans()
    ensures var t := Insertion(Insertion(Insertion(Insertion(Leaf, 0, 4), 0, 3), 0, 2), 0, 1);
      Inorder(t) == [1, 2, 3, 4] && !RemovalFails(t, 2) && Removal(t, 2) == Leaning()
  {
  }

  /** Then insert 8, 7 and 6, and remove 4. */
  lemma {:induction false} RunUneven()
    ensures Colored(Leaning()) && |Inorder(Leaning())| == 3
    ensures var t := Insertion(Insertion(Insertion(Leaning(), 3, 8), 3, 7), 3, 6);
      Inorder(t) == [1, 2, 4, 6, 7, 8] && !RemovalFails(t, 2) && Removal(t, 2) == Uneven()
  {
  }

  /** Then remove 7: removing 6 now reads a null sibling. */
  lemma {:induction false} RunReadsNull()
    ensures Colored(Uneven()) && Inorder(Uneven()) == [1, 2, 6, 7, 8] && !RemovalFails(Uneven(), 3)
    ensures var t := Removal(Uneven(), 3);
      Colored(t) && Inorder(t) == [1, 2, 6, 8] && RemovalFails(t, 2)
  {
  }
}
