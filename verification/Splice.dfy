/** What removing a node does to the shape of the tree, before any rebalancing. */
module Splice {
  import opened Sequences
  import opened TreeShape
  import opened RedBlack

  /** `sp` with its root end continued by `c`. */
  ghost function Graft<N>(sp: Context<N>, c: Context<N>): Context<N> {
    match sp
    case Top => c
    case InLeft(color, n, s, up) => InLeft(color, n, s, Graft(up, c))
    case InRight(color, s, n, up) => InRight(color, s, n, Graft(up, c))
  }

  lemma {:induction false} GraftPlug<N>(sp: Context<N>, c: Context<N>, t: Tree<N>)
    ensures Plug(Graft(sp, c), t) == Plug(c, Plug(sp, t))
    decreases sp
  {
    if !sp.Top? {
      assert Join(Graft(sp, c), t) == Join(sp, t);
      GraftPlug(sp.up, c, Join(sp, t));
    }
  }

  lemma {:induction false} GraftOrder<N>(sp: Context<N>, c: Context<N>)
    ensures Before(Graft(sp, c)) == Before(c) + Before(sp)
    ensures After(Graft(sp, c)) == After(sp) + After(c)
  {
    if !sp.Top? {
      GraftOrder(sp.up, c);
      if sp.InLeft? {
        assert [sp.node] + Inorder(sp.sibling) + (After(sp.up) + After(c)) ==
          ([sp.node] + Inorder(sp.sibling) + After(sp.up)) + After(c);
      } else {
        assert (Before(c) + Before(sp.up)) + (Inorder(sp.sibling) + [sp.node]) ==
          Before(c) + (Before(sp.up) + (Inorder(sp.sibling) + [sp.node]));
      }
    }
  }

  lemma {:induction false} GraftNodes<N>(sp: Context<N>, c: Context<N>)
    ensures ContextNodes(Graft(sp, c)) == ContextNodes(sp) + ContextNodes(c)
  {
    if !sp.Top? {
      GraftNodes(sp.up, c);
    }
  }

  lemma {:induction false} LeftmostGraft<N>(sp: Context<N>, c: Context<N>, t: Tree<N>)
    requires t.Node?
    ensures Leftmost(Graft(sp, c), t) == Zip(Graft(Leftmost(sp, t).context, c), Leftmost(sp, t).tree)
    decreases t
  {
    if t.left.Node? {
      LeftmostGraft(InLeft(t.color, t.node, t.right, sp), c, t.left);
    }
  }

  /** Where a node or its colour occurs in a context does not matter, as long as no node leaves. */
  lemma {:induction false} GraftFits<N>(sp: Context<N>, color: Color, l: Tree<N>, a: N, b: N, c: Context<N>, k: nat,
      red: bool)
    requires Fits(Graft(sp, InRight(color, l, a, c)), k, red, {})
    ensures Fits(Graft(sp, InRight(color, l, b, c)), k, red, {})
    decreases sp
  {
    if !sp.Top? {
      GraftFits(sp.up, color, l, a, b, c, k + Weight(sp.color, sp.node, {}), sp.color.Red?);
    }
  }

  /** The hole left by the node that is unlinked, the subtree that fills it, and the colour that is lost. */
  datatype Cut<N> = Cut(hole: Context<N>, rest: Tree<N>, color: Color)

  /** The cut made by removing the top of `t`: with two children, its successor takes its place. */
  ghost function CutTop<N>(c: Context<N>, t: Tree<N>): Cut<N>
    requires t.Node?
  {
    if t.left.Leaf? then Cut(c, t.right, t.color)
    else if t.right.Leaf? then Cut(c, t.left, t.color)
    else
      var m := Leftmost(Top, t.right);
      Cut(Graft(m.context, InRight(t.color, t.left, m.tree.node, c)), m.tree.right, m.tree.color)
  }

  /** The in-order sequence of a subtree starts with its leftmost node. */
  lemma {:induction false} LeftmostFirst<N>(t: Tree<N>)
    requires t.Node?
    ensures var m := Leftmost(Top, t);
      Inorder(t) == [m.tree.node] + Inorder(m.tree.right) + After(m.context)
  {
    var m := Leftmost(Top, t);
    WholePlug(m.context, m.tree);
    assert Inorder(m.tree) == [m.tree.node] + Inorder(m.tree.right);
  }

  lemma {:induction false} Rotate3<N>(b: seq<N>, l: seq<N>, y: N, x: seq<N>, s: seq<N>, a: seq<N>)
    ensures (b + (l + [y]) + []) + x + (s + a) == b + l + ([y] + x + s) + a
  {
  }

  lemma {:induction false} SplitAround<N>(s: seq<N>, b: seq<N>, l: seq<N>, n: N, r: seq<N>, a: seq<N>)
    requires s == b + (l + [n] + r) + a
    ensures |b| + |l| < |s| && s[|b| + |l|] == n && Omit(s, |b| + |l|) == b + l + r + a
  {
  }

  lemma {:induction false} CutOrder<N>(c: Context<N>, t: Tree<N>)
    requires t.Node?
    ensures Whole(CutTop(c, t).hole, CutTop(c, t).rest) == Before(c) + Inorder(t.left) + Inorder(t.right) + After(c)
  {
    if t.left.Node? && t.right.Node? {
      var m := Leftmost(Top, t.right);
      LeftmostFirst(t.right);
      GraftOrder(m.context, InRight(t.color, t.left, m.tree.node, c));
      Rotate3(Before(c), Inorder(t.left), m.tree.node, Inorder(m.tree.right), After(m.context), After(c));
    }
  }

  /** The cut takes the top of `t` out of the in-order sequence, and nothing else. */
  lemma {:induction false} CutWhole<N>(c: Context<N>, t: Tree<N>)
    requires t.Node?
    ensures var s, k := Whole(c, t), |Before(c)| + |Inorder(t.left)|;
      k < |s| && s[k] == t.node && Whole(CutTop(c, t).hole, CutTop(c, t).rest) == Omit(s, k)
  {
    hide CutTop, Before, After;
    CutOrder(c, t);
    assert Inorder(t) == Inorder(t.left) + [t.node] + Inorder(t.right);
    SplitAround(Whole(c, t), Before(c), Inorder(t.left), t.node, Inorder(t.right), After(c));
  }

  /** With two children, the next node in order takes the place and the colour of the one that is removed. */
  lemma {:induction false} SuccessorTakesPlace<N>(c: Context<N>, t: Tree<N>) returns (right: Tree<N>)
    requires t.Node? && t.left.Node? && t.right.Node?
    ensures var s, k := Whole(c, t), |Before(c)| + |Inorder(t.left)|;
      && k + 1 < |s| && s[k] == t.node
      && Plug(CutTop(c, t).hole, CutTop(c, t).rest) == Plug(c, Node(t.color, t.left, s[k + 1], right))
  {
    var m := Leftmost(Top, t.right);
    right := Plug(m.context, m.tree.right);
    NextInOrder(c, t);
    LeftmostGraft(Top, InRight(t.color, t.left, t.node, c), t.right);
    GraftPlug(m.context, InRight(t.color, t.left, m.tree.node, c), m.tree.right);
  }

  /** In a red-black tree the cut loses a red node without children, or a black node with at most one red child. */
  lemma {:induction false} CutTidy<N>(c: Context<N>, t: Tree<N>)
    requires t.Node? && Tidy(Plug(c, t), {}) && !IsRed(Plug(c, t))
    ensures var cut := CutTop(c, t);
      && (cut.color.Red? ==> cut.rest.Leaf? && Fits(cut.hole, 0, false, {}))
      && (cut.color.Black? ==> Fits(cut.hole, 1, false, {}))
      && (cut.color.Black? && cut.rest.Node? ==> Short(cut.hole, cut.rest, {}))
      && (cut.color.Black? ==> cut.rest.Leaf? || (IsRed(cut.rest) && cut.rest.left.Leaf? && cut.rest.right.Leaf?))
  {
    UnplugTidy(c, t, {});
    if t.left.Node? && t.right.Node? {
      var m := Leftmost(Top, t.right);
      var c0 := InRight(t.color, t.left, t.node, c);
      LeftmostGraft(Top, c0, t.right);
      GraftPlug(m.context, c0, m.tree);
      UnplugTidy(Graft(m.context, c0), m.tree, {});
      GraftFits(m.context, t.color, t.left, t.node, m.tree.node, c, BlackHeight(m.tree, {}), IsRed(m.tree));
      RelaxFits(CutTop(c, t).hole, BlackHeight(m.tree, {}), IsRed(m.tree), {});
      BareTidy(m.tree.right);
    } else {
      RelaxFits(c, BlackHeight(t, {}), IsRed(t), {});
      BareTidy(if t.left.Leaf? then t.right else t.left);
    }
  }

  lemma {:induction false} BareTidy<N>(t: Tree<N>)
    requires Tidy(t, {}) && BlackHeight(t, {}) == 0
    ensures t.Leaf? || (IsRed(t) && t.left.Leaf? && t.right.Leaf?)
  {
    if t.Node? {
      BareTidy(t.left);
      BareTidy(t.right);
    }
  }

  /** Removing the top of `t` unlinks a black node that has no child to inherit its blackness. */
  ghost predicate LosesBlack<N>(c: Context<N>, t: Tree<N>)
    requires t.Node?
  {
    var cut := CutTop(c, t);
    cut.color.Black? && cut.rest.Leaf? && !cut.hole.Top?
  }

  /** The tree after the cut and the recolouring that remove does. */
  ghost function AfterCut<N>(cut: Cut<N>): Tree<N> {
    if cut.color.Black? then Plug(cut.hole, Blacken(cut.rest)) else Plug(cut.hole, cut.rest)
  }

  /** Removal keeps the red-black invariants exactly when it does not unlink a black leaf. */
  lemma {:induction false} CutBalance<N>(c: Context<N>, t: Tree<N>)
    requires t.Node? && Tidy(Plug(c, t), {}) && !IsRed(Plug(c, t))
    ensures NoRedRed(AfterCut(CutTop(c, t))) && !IsRed(AfterCut(CutTop(c, t)))
    ensures Balanced(AfterCut(CutTop(c, t)), {}) <==> !LosesBlack(c, t)
    ensures LosesBlack(c, t) ==>
      AfterCut(CutTop(c, t)) == Plug(CutTop(c, t).hole, Leaf) && Fits(CutTop(c, t).hole, 1, false, {})
  {
    var cut := CutTop(c, t);
    CutTidy(c, t);
    if LosesBlack(c, t) {
      PlugShort(cut.hole, cut.rest, 1);
    } else if cut.color.Black? {
      PlugTidy(cut.hole, Blacken(cut.rest), {});
    } else {
      PlugTidy(cut.hole, cut.rest, {});
    }
  }

  lemma {:induction false} PlugShort<N>(c: Context<N>, t: Tree<N>, k: nat)
    requires Fits(c, k, false, {}) && NoRedRed(t) && !IsRed(t)
    ensures NoRedRed(Plug(c, t)) && !IsRed(Plug(c, t))
    ensures !c.Top? && BlackHeight(t, {}) != k ==> !Balanced(Plug(c, t), {})
    decreases c
  {
    FitsColored(c, k, false, {});
    PlugColors(c, t);
    if !c.Top? && BlackHeight(t, {}) != k {
      PlugUnbalanced(c.up, Join(c, t));
    }
  }

  lemma {:induction false} PlugUnbalanced<N>(c: Context<N>, t: Tree<N>)
    requires !Balanced(t, {})
    ensures !Balanced(Plug(c, t), {})
    decreases c
  {
    if !c.Top? {
      PlugUnbalanced(c.up, Join(c, t));
    }
  }

  /** Another node in the same place keeps a tree tidy. */
  lemma {:induction false} RenameTidy<N>(c: Context<N>, t: Tree<N>, n: N)
    requires t.Node? && Tidy(Plug(c, t), {}) && !IsRed(Plug(c, t))
    ensures Tidy(Plug(c, t.(node := n)), {}) && !IsRed(Plug(c, t.(node := n)))
  {
    UnplugTidy(c, t, {});
    PlugTidy(c, t.(node := n), {});
  }

  /** A black leaf that is about to leave counts as one black short. */
  lemma {:induction false} LeavingShort<N>(c: Context<N>, t: Tree<N>)
    requires t.Node? && t.left.Leaf? && t.right.Leaf? && t.color.Black?
    requires Tidy(Plug(c, t), {}) && !IsRed(Plug(c, t)) && t.node !in ContextNodes(c)
    ensures Short(c, t, {t.node})
  {
    UnplugTidy(c, t, {});
    IgnoreContext(c, 1, false, {t.node});
  }

  /** After the repair, the leaving black leaf can be cut without any loss. */
  lemma {:induction false} CutLeaving<N>(c: Context<N>, t: Tree<N>)
    requires t.Node? && Tidy(Plug(c, t), {t.node}) && !IsRed(Plug(c, t)) && t.node !in ContextNodes(c)
    ensures t.left.Leaf? && t.right.Leaf?
    ensures Tidy(Plug(c, Leaf), {}) && !IsRed(Plug(c, Leaf))
  {
    UnplugTidy(c, t, {t.node});
    IgnoreContext(c, 0, false, {t.node});
    PlugTidy(c, Leaf, {});
  }

  /** The successor is the right child itself exactly when that child has no left child. */
  lemma {:induction false} NearSuccessor<N>(t: Tree<N>)
    requires t.Node?
    ensures Leftmost(Top, t).context.Top? <==> t.left.Leaf?
  {
    if t.left.Node? {
      LeftmostDeeper(InLeft(t.color, t.node, t.right, Top), t.left);
    }
  }

  lemma {:induction false} LeftmostDeeper<N>(c: Context<N>, t: Tree<N>)
    requires t.Node? && !c.Top?
    ensures !Leftmost(c, t).context.Top?
    decreases t
  {
    if t.left.Node? {
      LeftmostDeeper(InLeft(t.color, t.node, t.right, c), t.left);
    }
  }

  /** After the top of `t` in order comes the leftmost node of its right subtree. */
  lemma {:induction false} NextInOrder<N>(c: Context<N>, t: Tree<N>)
    requires t.Node? && t.right.Node?
    ensures var s, k := Whole(c, t), |Before(c)| + |Inorder(t.left)|;
      var m := Leftmost(InRight(t.color, t.left, t.node, c), t.right);
      k + 1 < |s| && s[k] == t.node && s[k + 1] == m.tree.node && Whole(m.context, m.tree) == s
  {
    var c0 := InRight(t.color, t.left, t.node, c);
    var m := Leftmost(c0, t.right);
    WholeUp(c0, t.right);
    WholePlug(m.context, m.tree);
    WholePlug(c0, t.right);
    assert Inorder(m.tree) == [m.tree.node] + Inorder(m.tree.right);
    assert Whole(m.context, m.tree)[|Before(c0)|] == m.tree.node;
    assert Whole(c0, t.right)[|Before(c0)| - 1] == t.node;
  }

  /** Before the top of `t` in order comes the rightmost node of its left subtree. */
  lemma {:induction false} PreviousInOrder<N>(c: Context<N>, t: Tree<N>)
    requires t.Node? && t.left.Node?
    ensures var s, k := Whole(c, t), |Before(c)| + |Inorder(t.left)|;
      var m := Rightmost(InLeft(t.color, t.node, t.right, c), t.left);
      0 < k < |s| && s[k] == t.node && s[k - 1] == m.tree.node && Whole(m.context, m.tree) == s
  {
    var c0 := InLeft(t.color, t.node, t.right, c);
    var m := Rightmost(c0, t.left);
    WholeUp(c0, t.left);
    WholePlug(m.context, m.tree);
    WholePlug(c0, t.left);
    var s := Whole(c, t);
    assert Inorder(m.tree) == Inorder(m.tree.left) + [m.tree.node];
    assert |s| - |After(c0)| == |Before(c)| + |Inorder(t.left)|;
    assert Whole(m.context, m.tree)[|s| - |After(c0)| - 1] == m.tree.node;
    assert Whole(c0, t.left)[|s| - |After(c0)|] == t.node;
  }

  /** The view at the node that removing the top of `t` would unlink. */
  ghost function SplicedOut<N>(c: Context<N>, t: Tree<N>): Zip<N>
    requires t.Node?
  {
    if t.left.Leaf? || t.right.Leaf? then Zip(c, t)
    else Leftmost(InRight(t.color, t.left, t.node, c), t.right)
  }

  lemma {:induction false} SplicedOutLoses<N>(c: Context<N>, t: Tree<N>)
    requires t.Node?
    ensures var z := SplicedOut(c, t);
      && z.tree.Node? && Plug(z.context, z.tree) == Plug(c, t)
      && (LosesBlack(c, t) <==> z.tree == Node(Black, Leaf, z.tree.node, Leaf) && !z.context.Top?)
  {
    if t.left.Node? && t.right.Node? {
      var c0 := InRight(t.color, t.left, t.node, c);
      LeftmostGraft(Top, c0, t.right);
      LeftmostDeeper(c0, t.right);
      if Graft(Leftmost(Top, t.right).context, InRight(t.color, t.left, t.node, c)).Top? {
        assert false;
      }
    }
  }
}
