/** The intrusive red-black tree of price levels: the links live in the levels, and every method rewrites them in
    place. A ghost tree says what they spell out; each heap write is proved to be one rewriting step on it. */
module IntrusiveTree {
  import opened Sequences
  import opened Types
  import opened TreeShape
  import opened RedBlack
  import opened Rebalance
  import opened Splice
  import opened Levels
  import opened TreeLinks
  import opened LevelOrder

  class IntrusiveRBTree {
    const side: Side
    var root: PriceLevel?
    var size: nat
    ghost var tree: LevelTree
    ghost var members: set<PriceLevel>

    ghost function HeapLinks(): Links
      reads this`members, members`hook
    {
      map n | n in members :: n.hook
    }

    /** The heap holds the tree Plug(c, t), whose nodes in order are `s`. */
    ghost predicate View(c: LevelContext, t: LevelTree, s: seq<PriceLevel>)
      reads this`root, this`members, members`hook
    {
      Linked(c, t, root, HeapLinks()) && Whole(c, t) == s
    }

    lemma {:induction false} Ascend(c: LevelContext, t: LevelTree, s: seq<PriceLevel>)
      requires !c.Top?
      ensures View(c, t, s) <==> View(c.up, Join(c, t), s)
    {
      LinkedUp(c, t, root, HeapLinks());
      WholeUp(c, t);
    }

    lemma {:induction false} Sideways(c: LevelContext, t: LevelTree, s: seq<PriceLevel>)
      requires !c.Top?
      ensures View(c, t, s) <==> View(Across(c, t), c.sibling, s)
    {
      Ascend(c, t, s);
      Ascend(Across(c, t), c.sibling, s);
      assert Join(c, t) == Join(Across(c, t), c.sibling);
    }

    lemma {:induction false} FromTop(c: LevelContext, t: LevelTree, s: seq<PriceLevel>)
      ensures View(c, t, s) <==> View(Top, Plug(c, t), s)
    {
      LinkedPlug(c, t, root, HeapLinks());
      WholePlug(c, t);
      WholePlug(Top, Plug(c, t));
    }

    /** The fields of the viewed node and of the node above it. */
    lemma {:induction false} See(c: LevelContext, t: LevelTree, s: seq<PriceLevel>)
      requires View(c, t, s)
      ensures t.Node? ==> t.node in members && t.node.hook == TreeNode(Above(c), Root(t.left), Root(t.right), t.color)
      ensures t.Node? && t.left.Node? ==> t.left.node in members && t.left.node.hook.color == t.left.color
      ensures t.Node? && t.right.Node? ==> t.right.node in members && t.right.node.hook.color == t.right.color
      ensures match c
        case Top => root == Root(t)
        case InLeft(color, n, s, up) =>
          root != null && (t.Node? ==> root != t.node)
          && n in members && n.hook == TreeNode(Above(up), Root(t), Root(s), color) && (t.Node? ==> Root(s) != t.node)
        case InRight(color, s, n, up) =>
          root != null && (t.Node? ==> root != t.node)
          && n in members && n.hook == TreeNode(Above(up), Root(s), Root(t), color) && (t.Node? ==> Root(s) != t.node)
    {
      Look(c, t, root, HeapLinks());
    }

    method SetColor(n: PriceLevel, color: Color, ghost c: LevelContext, ghost t: LevelTree, ghost s: seq<PriceLevel>)
      requires View(c, t, s) && t.Node? && t.node == n
      modifies members`hook
      ensures View(c, t.(color := color), s)
    {
      ghost var m := HeapLinks();
      See(c, t, s);
      n.hook := n.hook.(color := color);
      Painted(c, t, color, root, m, HeapLinks());
    }

    method RotateLeftAt(x: PriceLevel, ghost c: LevelContext, ghost t: LevelTree, ghost s: seq<PriceLevel>)
      requires View(c, t, s) && t.Node? && t.node == x && t.right.Node?
      modifies this`root, members`hook
      ensures View(c, RotateLeft(t), s)
    {
      ghost var m := HeapLinks();
      OpenRight(c, t, root, m);
      var y := x.hook.right;
      x.hook := x.hook.(right := y.hook.left);
      if y.hook.left != null {
        y.hook.left.hook := y.hook.left.hook.(parent := x);
      }
      y.hook := y.hook.(parent := x.hook.parent);
      if x.hook.parent == null {
        root := y;
      } else if x == x.hook.parent.hook.left {
        x.hook.parent.hook := x.hook.parent.hook.(left := y);
      } else {
        x.hook.parent.hook := x.hook.parent.hook.(right := y);
      }
      y.hook := y.hook.(left := x);
      x.hook := x.hook.(parent := y);
      RotatedLeft(c, t, old(root), root, m, HeapLinks());
      RotationInorder(t);
    }

    method RotateRightAt(y: PriceLevel, ghost c: LevelContext, ghost t: LevelTree, ghost s: seq<PriceLevel>)
      requires View(c, t, s) && t.Node? && t.node == y && t.left.Node?
      modifies this`root, members`hook
      ensures View(c, RotateRight(t), s)
    {
      ghost var m := HeapLinks();
      OpenLeft(c, t, root, m);
      var x := y.hook.left;
      y.hook := y.hook.(left := x.hook.right);
      if x.hook.right != null {
        x.hook.right.hook := x.hook.right.hook.(parent := y);
      }
      x.hook := x.hook.(parent := y.hook.parent);
      if y.hook.parent == null {
        root := x;
      } else if y == y.hook.parent.hook.right {
        y.hook.parent.hook := y.hook.parent.hook.(right := x);
      } else {
        y.hook.parent.hook := y.hook.parent.hook.(left := x);
      }
      x.hook := x.hook.(right := y);
      y.hook := y.hook.(parent := x);
      RotatedRight(c, t, old(root), root, m, HeapLinks());
      RotationInorder(t);
    }

    /** The node above the hole, its own parent, and the sibling of the hole, as the links give them. */
    lemma {:induction false} SeeFamily(c: LevelContext, t: LevelTree, s: seq<PriceLevel>)
      requires View(c, t, s) && !c.Top?
      ensures View(c.up, Join(c, t), s) && View(Across(c, t), c.sibling, s)
      ensures c.node in members && c.node.hook.parent == Above(c.up) && c.node.hook.color == c.color
      ensures c.InLeft? ==> c.node.hook.left == Root(t) && c.node.hook.right == Root(c.sibling)
      ensures c.InRight? ==> c.node.hook.right == Root(t) && c.node.hook.left == Root(c.sibling)
      ensures t.Node? ==> Root(c.sibling) != t.node
      ensures c.sibling.Node? ==> c.sibling.node in members && c.sibling.node.hook.color == c.sibling.color
    {
      Ascend(c, t, s);
      Sideways(c, t, s);
      See(c, t, s);
      See(Across(c, t), c.sibling, s);
    }

    /** The parent, the grandparent and the uncle of a red node with a red parent. */
    lemma {:induction false} SeeUncle(c: LevelContext, t: LevelTree, s: seq<PriceLevel>)
      requires View(c, t, s) && ClimbColors(c, t) && !c.Top? && c.color.Red?
      ensures !c.up.Top?
      ensures t.node.hook.parent == c.node && c.node.hook.parent == c.up.node
      ensures c.InLeft? ==> c.node.hook.left == t.node && c.node.hook.right != t.node
      ensures c.InRight? ==> c.node.hook.right == t.node && c.node.hook.left != t.node
      ensures c.up.InLeft? ==> c.up.node.hook.left == c.node && c.up.node.hook.right == Root(c.up.sibling)
      ensures c.up.InRight? ==> c.up.node.hook.right == c.node && c.up.node.hook.left == Root(c.up.sibling)
      ensures c.up.InRight? ==> c.up.node.hook.left != c.node
      ensures c.up.sibling.Node? ==> c.up.sibling.node.hook.color == c.up.sibling.color
    {
      See(c, t, s);
      SeeFamily(c, t, s);
      SeeFamily(c.up, Join(c, t), s);
    }

    /** A red uncle: parent and uncle turn black, the grandparent red, and the climb goes on from there. */
    method RecolorAndRise(p: PriceLevel, y: PriceLevel, grand: PriceLevel,
                          ghost c: LevelContext, ghost t: LevelTree, ghost s: seq<PriceLevel>)
      requires View(c, t, s) && t.Node? && !c.Top? && !c.up.Top? && c.node == p
      requires IsRed(c.up.sibling) && c.up.node == grand && c.up.sibling.node == y
      modifies members`hook
      ensures var z := ClimbTurn(c, t); View(z.context, z.tree, s) && z.tree.node == grand
    {
      ghost var g, b := c.up, Blacken(Join(c, t));
      Ascend(c, t, s);
      SetColor(p, Black, g, Join(c, t), s);
      Sideways(g, b, s);
      SetColor(y, Black, Across(g, b), g.sibling, s);
      ghost var g' := WithSibling(g, Blacken(g.sibling));
      Sideways(g', b, s);
      Ascend(g', b, s);
      SetColor(grand, Red, g.up, Join(g', b), s);
    }

    /** The parent of the red node z is a left child: one round of the climb. */
    method ClimbFromLeft(z: PriceLevel, ghost c: LevelContext, ghost t: LevelTree, ghost s: seq<PriceLevel>)
        returns (next: PriceLevel)
      requires View(c, t, s) && ClimbColors(c, t) && t.node == z && !c.Top? && c.color.Red? && c.up.InLeft?
      modifies this`root, members`hook
      ensures var r := ClimbTurn(c, t); View(r.context, r.tree, s) && r.tree.node == next
    {
      SeeUncle(c, t, s);
      var p := z.hook.parent;
      var grand := p.hook.parent;
      var y := grand.hook.right;
      if y != null && y.hook.color.Red? {
        RecolorAndRise(p, y, grand, c, t, s);
        next := grand;
      } else if z == p.hook.right {
        TurnLeft(p, c, t, s);
        SettleLeft(p, Turned(c, t).context, Turned(c, t).tree, s);
        next := p;
      } else {
        SettleLeft(z, c, t, s);
        next := z;
      }
    }

    method TurnLeft(p: PriceLevel, ghost c: LevelContext, ghost t: LevelTree, ghost s: seq<PriceLevel>)
      requires View(c, t, s) && t.Node? && c.InRight? && c.node == p
      modifies this`root, members`hook
      ensures View(Turned(c, t).context, Turned(c, t).tree, s)
    {
      Ascend(c, t, s);
      RotateLeftAt(p, c.up, Join(c, t), s);
      ghost var z := Turned(c, t);
      assert Join(z.context, z.tree) == RotateLeft(Join(c, t));
      Ascend(z.context, z.tree, s);
    }

    /** z is an outer child on the left with a black uncle: recolour and rotate at the grandparent. */
    method SettleLeft(z: PriceLevel, ghost c: LevelContext, ghost t: LevelTree, ghost s: seq<PriceLevel>)
      requires View(c, t, s) && t.Node? && t.node == z && c.InLeft? && c.up.InLeft?
      modifies this`root, members`hook
      ensures View(Raised(c), t, s)
    {
      ghost var g, P := c.up, Join(c, t);
      See(c, t, s);
      SeeFamily(c, t, s);
      var p := z.hook.parent;
      var grand := p.hook.parent;
      SetColor(p, Black, g, P, s);
      ghost var G := Join(g, Blacken(P));
      Ascend(g, Blacken(P), s);
      SetColor(grand, Red, g.up, G, s);
      RotateRightAt(grand, g.up, Redden(G), s);
      assert Join(Raised(c), t) == RotateRight(Redden(G));
      Ascend(Raised(c), t, s);
    }

    /** The parent of the red node z is a right child: one round of the climb. */
    method ClimbFromRight(z: PriceLevel, ghost c: LevelContext, ghost t: LevelTree, ghost s: seq<PriceLevel>)
        returns (next: PriceLevel)
      requires View(c, t, s) && ClimbColors(c, t) && t.node == z && !c.Top? && c.color.Red? && c.up.InRight?
      modifies this`root, members`hook
      ensures var r := ClimbTurn(c, t); View(r.context, r.tree, s) && r.tree.node == next
    {
      SeeUncle(c, t, s);
      var p := z.hook.parent;
      var grand := p.hook.parent;
      var y := grand.hook.left;
      if y != null && y.hook.color.Red? {
        RecolorAndRise(p, y, grand, c, t, s);
        next := grand;
      } else if z == p.hook.left {
        TurnRight(p, c, t, s);
        SettleRight(p, Turned(c, t).context, Turned(c, t).tree, s);
        next := p;
      } else {
        SettleRight(z, c, t, s);
        next := z;
      }
    }

    method TurnRight(p: PriceLevel, ghost c: LevelContext, ghost t: LevelTree, ghost s: seq<PriceLevel>)
      requires View(c, t, s) && t.Node? && c.InLeft? && c.node == p
      modifies this`root, members`hook
      ensures View(Turned(c, t).context, Turned(c, t).tree, s)
    {
      Ascend(c, t, s);
      RotateRightAt(p, c.up, Join(c, t), s);
      ghost var z := Turned(c, t);
      assert Join(z.context, z.tree) == RotateRight(Join(c, t));
      Ascend(z.context, z.tree, s);
    }

    /** z is an outer child on the right with a black uncle: recolour and rotate at the grandparent. */
    method SettleRight(z: PriceLevel, ghost c: LevelContext, ghost t: LevelTree, ghost s: seq<PriceLevel>)
      requires View(c, t, s) && t.Node? && t.node == z && c.InRight? && c.up.InRight?
      modifies this`root, members`hook
      ensures View(Raised(c), t, s)
    {
      ghost var g, P := c.up, Join(c, t);
      See(c, t, s);
      SeeFamily(c, t, s);
      var p := z.hook.parent;
      var grand := p.hook.parent;
      SetColor(p, Black, g, P, s);
      ghost var G := Join(g, Blacken(P));
      Ascend(g, Blacken(P), s);
      SetColor(grand, Red, g.up, G, s);
      RotateLeftAt(grand, g.up, Redden(G), s);
      assert Join(Raised(c), t) == RotateLeft(Redden(G));
      Ascend(Raised(c), t, s);
    }

    /** Ends in the tree that the insertion loop has as a function on values, on any colouring that it accepts. */
    method InsertFixup(node: PriceLevel, ghost c0: LevelContext, ghost t0: LevelTree, ghost s: seq<PriceLevel>)
        returns (ghost r: LevelTree)
      requires View(c0, t0, s) && ClimbColors(c0, t0) && t0.node == node
      modifies this`root, members`hook
      ensures View(Top, r, s) && r == Climbed(c0, t0)
      ensures NoRedRed(r) && !IsRed(r) && (Climbing(c0, t0) ==> Balanced(r, {}))
    {
      hide ClimbTurn, Climbing, NoRedRed, FitsColors, Linked, Whole, Balanced, Plug;
      var z := node;
      ghost var c, t := c0, t0;
      See(c, t, s);
      while z.hook.parent != null && z.hook.parent.hook.color.Red?
        invariant View(c, t, s) && ClimbColors(c, t) && t.node == z
        invariant Climbed(c, t) == Climbed(c0, t0)
        invariant z.hook.parent == Above(c) && (!c.Top? ==> c.node.hook.color == c.color)
        decreases Remaining(c)
      {
        SeeUncle(c, t, s);
        ClimbTurnColors(c, t);
        ghost var turn := ClimbTurn(c, t);
        if z.hook.parent == z.hook.parent.hook.parent.hook.left {
          z := ClimbFromLeft(z, c, t, s);
        } else {
          z := ClimbFromRight(z, c, t, s);
        }
        c, t := turn.context, turn.tree;
        See(c, t, s);
      }
      FromTop(c, t, s);
      r := Plug(c, t);
      See(Top, r, s);
      SetColor(root, Black, Top, r, s);
      r := Blacken(r);
      ClimbedColors(c0, t0);
      if Climbing(c0, t0) {
        ClimbedTidy(c0, t0);
      }
    }

    /** The parent, the sibling and the nephews of a node. */
    lemma {:induction false} SeeSibling(c: LevelContext, t: LevelTree, s: seq<PriceLevel>)
      requires View(c, t, s) && !c.Top? && t.Node?
      ensures t.node in members && t.node.hook.parent == c.node && t.node.hook.color == t.color && root != t.node
      ensures c.node in members && c.node.hook.color == c.color
      ensures c.InLeft? ==> c.node.hook.left == t.node && c.node.hook.right == Root(c.sibling)
      ensures c.InRight? ==> c.node.hook.right == t.node && c.node.hook.left == Root(c.sibling)
      ensures Root(c.sibling) != t.node
      ensures c.sibling.Node? ==> (
        && c.sibling.node in members
        && c.sibling.node.hook == TreeNode(c.node, Root(c.sibling.left), Root(c.sibling.right), c.sibling.color)
        && (c.sibling.left.Node? ==>
            c.sibling.left.node in members && c.sibling.left.node.hook.color == c.sibling.left.color)
        && (c.sibling.right.Node? ==>
            c.sibling.right.node in members && c.sibling.right.node.hook.color == c.sibling.right.color))
    {
      See(c, t, s);
      Sideways(c, t, s);
      See(Across(c, t), c.sibling, s);
    }

    /** x is a left child: one round of the repair. It gives up where it would read through a null sibling. */
    method RepairFromLeft(x: PriceLevel, ghost c: LevelContext, ghost t: LevelTree, ghost s: seq<PriceLevel>)
        returns (ok: bool, next: PriceLevel)
      requires View(c, t, s) && t.Node? && t.node == x && c.InLeft?
      modifies this`root, members`hook
      ensures ok <==> CanTurn(c)
      ensures ok ==> var r := RepairTurn(c, t); View(r.context, r.tree, s) && r.tree.node == next
    {
      SeeSibling(c, t, s);
      var w := x.hook.parent.hook.right;
      if w == null {
        return false, x;
      }
      if w.hook.color.Red? {
        LowerBelowRight(x.hook.parent, w, c, t, s);
        SeeSibling(Lowered(c), t, s);
        w := x.hook.parent.hook.right;
        if w == null {
          return false, x;
        }
        next := CompensateLeft(x, w, Lowered(c), t, s);
      } else {
        next := CompensateLeft(x, w, c, t, s);
      }
      ok := true;
    }

    method LowerBelowRight(p: PriceLevel, w: PriceLevel,
                           ghost c: LevelContext, ghost t: LevelTree, ghost s: seq<PriceLevel>)
      requires View(c, t, s) && c.InLeft? && c.node == p && c.sibling.Node? && c.sibling.node == w
      modifies this`root, members`hook
      ensures View(Lowered(c), t, s)
    {
      Sideways(c, t, s);
      SetColor(w, Black, Across(c, t), c.sibling, s);
      ghost var b := WithSibling(c, Blacken(c.sibling));
      Sideways(b, t, s);
      Ascend(b, t, s);
      SetColor(p, Red, c.up, Join(b, t), s);
      RotateLeftAt(p, c.up, Swapped(c, t), s);
      assert Join(Lowered(c).up, Join(Lowered(c), t)) == RotateLeft(Swapped(c, t));
      Ascend(Lowered(c), t, s);
      Ascend(Lowered(c).up, Join(Lowered(c), t), s);
    }

    /** x is a left child with the sibling w: move the shortage up, or make up for it. */
    method CompensateLeft(x: PriceLevel, w: PriceLevel,
                          ghost c: LevelContext, ghost t: LevelTree, ghost s: seq<PriceLevel>)
        returns (next: PriceLevel)
      requires View(c, t, s) && t.Node? && t.node == x && c.InLeft? && c.sibling.Node? && c.sibling.node == w
      modifies this`root, members`hook
      ensures var r := Compensated(c, t); View(r.context, r.tree, s) && r.tree.node == next
    {
      hide Linked, Whole, Plug, Settled;
      SeeSibling(c, t, s);
      if (w.hook.left == null || w.hook.left.hook.color.Black?) &&
         (w.hook.right == null || w.hook.right.hook.color.Black?) {
        next := x.hook.parent;
        PassUp(w, c, t, s);
      } else {
        ghost var b := c;
        var v := w;
        if w.hook.right == null || w.hook.right.hook.color.Black? {
          TurnSiblingRight(w, c, t, s);
          b := FarRed(c);
          SeeSibling(b, t, s);
          v := x.hook.parent.hook.right;
        }
        BalanceLeft(x, v, b, t, s);
        See(Top, Plug(b.up, Settled(b, t)), s);
        next := root;
      }
    }

    /** The sibling turns red: the shortage moves to the parent. */
    method PassUp(w: PriceLevel, ghost c: LevelContext, ghost t: LevelTree, ghost s: seq<PriceLevel>)
      requires View(c, t, s) && !c.Top? && c.sibling.Node? && c.sibling.node == w
      modifies members`hook
      ensures View(c.up, Join(WithSibling(c, Redden(c.sibling)), t), s)
    {
      Sideways(c, t, s);
      SetColor(w, Red, Across(c, t), c.sibling, s);
      ghost var b := WithSibling(c, Redden(c.sibling));
      Sideways(b, t, s);
      Ascend(b, t, s);
    }

    method TurnSiblingRight(w: PriceLevel, ghost c: LevelContext, ghost t: LevelTree, ghost s: seq<PriceLevel>)
      requires View(c, t, s) && c.InLeft? && c.sibling.Node? && c.sibling.node == w && c.sibling.left.Node?
      modifies this`root, members`hook
      ensures View(FarRed(c), t, s)
    {
      ghost var o, u := Across(c, t), c.sibling;
      Sideways(c, t, s);
      See(o, u, s);
      ghost var down := InLeft(u.color, u.node, u.right, o);
      Ascend(down, u.left, s);
      SetColor(w.hook.left, Black, down, u.left, s);
      Ascend(down, Blacken(u.left), s);
      u := u.(left := Blacken(u.left));
      SetColor(w, Red, o, u, s);
      RotateRightAt(w, o, Redden(u), s);
      Sideways(FarRed(c), t, s);
    }

    method BalanceLeft(x: PriceLevel, w: PriceLevel,
                       ghost c: LevelContext, ghost t: LevelTree, ghost s: seq<PriceLevel>)
      requires View(c, t, s) && t.Node? && t.node == x && c.InLeft?
      requires c.sibling.Node? && c.sibling.node == w && c.sibling.right.Node?
      modifies this`root, members`hook
      ensures View(Top, Plug(c.up, Settled(c, t)), s)
    {
      SeeSibling(c, t, s);
      var p := x.hook.parent;
      ghost var o, u := Across(c, t), c.sibling;
      Sideways(c, t, s);
      See(o, u, s);
      SetColor(w, p.hook.color, o, u, s);
      u := u.(color := c.color);
      See(o, u, s);
      ghost var down := InRight(u.color, u.left, u.node, o);
      Ascend(down, u.right, s);
      SetColor(w.hook.right, Black, down, u.right, s);
      Ascend(down, Blacken(u.right), s);
      u := u.(right := Blacken(u.right));
      ghost var b := WithSibling(c, u);
      Sideways(b, t, s);
      Ascend(b, t, s);
      SetColor(p, Black, c.up, Join(b, t), s);
      RotateLeftAt(p, c.up, Blacken(Join(b, t)), s);
      assert Settled(c, t) == RotateLeft(Blacken(Join(b, t)));
      FromTop(c.up, Settled(c, t), s);
    }

    /** x is a right child: one round of the repair. It gives up where it would read through a null sibling. */
    method RepairFromRight(x: PriceLevel, ghost c: LevelContext, ghost t: LevelTree, ghost s: seq<PriceLevel>)
        returns (ok: bool, next: PriceLevel)
      requires View(c, t, s) && t.Node? && t.node == x && c.InRight?
      modifies this`root, members`hook
      ensures ok <==> CanTurn(c)
      ensures ok ==> var r := RepairTurn(c, t); View(r.context, r.tree, s) && r.tree.node == next
    {
      SeeSibling(c, t, s);
      var w := x.hook.parent.hook.left;
      if w == null {
        return false, x;
      }
      if w.hook.color.Red? {
        LowerBelowLeft(x.hook.parent, w, c, t, s);
        SeeSibling(Lowered(c), t, s);
        w := x.hook.parent.hook.left;
        if w == null {
          return false, x;
        }
        next := CompensateRight(x, w, Lowered(c), t, s);
      } else {
        next := CompensateRight(x, w, c, t, s);
      }
      ok := true;
    }

    method LowerBelowLeft(p: PriceLevel, w: PriceLevel,
                          ghost c: LevelContext, ghost t: LevelTree, ghost s: seq<PriceLevel>)
      requires View(c, t, s) && c.InRight? && c.node == p && c.sibling.Node? && c.sibling.node == w
      modifies this`root, members`hook
      ensures View(Lowered(c), t, s)
    {
      Sideways(c, t, s);
      SetColor(w, Black, Across(c, t), c.sibling, s);
      ghost var b := WithSibling(c, Blacken(c.sibling));
      Sideways(b, t, s);
      Ascend(b, t, s);
      SetColor(p, Red, c.up, Join(b, t), s);
      RotateRightAt(p, c.up, Swapped(c, t), s);
      assert Join(Lowered(c).up, Join(Lowered(c), t)) == RotateRight(Swapped(c, t));
      Ascend(Lowered(c), t, s);
      Ascend(Lowered(c).up, Join(Lowered(c), t), s);
    }

    /** x is a right child with the sibling w: move the shortage up, or make up for it. */
    method CompensateRight(x: PriceLevel, w: PriceLevel,
                           ghost c: LevelContext, ghost t: LevelTree, ghost s: seq<PriceLevel>)
        returns (next: PriceLevel)
      requires View(c, t, s) && t.Node? && t.node == x && c.InRight? && c.sibling.Node? && c.sibling.node == w
      modifies this`root, members`hook
      ensures var r := Compensated(c, t); View(r.context, r.tree, s) && r.tree.node == next
    {
      hide Linked, Whole, Plug, Settled;
      SeeSibling(c, t, s);
      if (w.hook.right == null || w.hook.right.hook.color.Black?) &&
         (w.hook.left == null || w.hook.left.hook.color.Black?) {
        next := x.hook.parent;
        PassUp(w, c, t, s);
      } else {
        ghost var b := c;
        var v := w;
        if w.hook.left == null || w.hook.left.hook.color.Black? {
          TurnSiblingLeft(w, c, t, s);
          b := FarRed(c);
          SeeSibling(b, t, s);
          v := x.hook.parent.hook.left;
        }
        BalanceRight(x, v, b, t, s);
        See(Top, Plug(b.up, Settled(b, t)), s);
        next := root;
      }
    }

    method TurnSiblingLeft(w: PriceLevel, ghost c: LevelContext, ghost t: LevelTree, ghost s: seq<PriceLevel>)
      requires View(c, t, s) && c.InRight? && c.sibling.Node? && c.sibling.node == w && c.sibling.right.Node?
      modifies this`root, members`hook
      ensures View(FarRed(c), t, s)
    {
      ghost var o, u := Across(c, t), c.sibling;
      Sideways(c, t, s);
      See(o, u, s);
      ghost var down := InRight(u.color, u.left, u.node, o);
      Ascend(down, u.right, s);
      SetColor(w.hook.right, Black, down, u.right, s);
      Ascend(down, Blacken(u.right), s);
      u := u.(right := Blacken(u.right));
      SetColor(w, Red, o, u, s);
      RotateLeftAt(w, o, Redden(u), s);
      Sideways(FarRed(c), t, s);
    }

    method BalanceRight(x: PriceLevel, w: PriceLevel,
                        ghost c: LevelContext, ghost t: LevelTree, ghost s: seq<PriceLevel>)
      requires View(c, t, s) && t.Node? && t.node == x && c.InRight?
      requires c.sibling.Node? && c.sibling.node == w && c.sibling.left.Node?
      modifies this`root, members`hook
      ensures View(Top, Plug(c.up, Settled(c, t)), s)
    {
      SeeSibling(c, t, s);
      var p := x.hook.parent;
      ghost var o, u := Across(c, t), c.sibling;
      Sideways(c, t, s);
      See(o, u, s);
      SetColor(w, p.hook.color, o, u, s);
      u := u.(color := c.color);
      See(o, u, s);
      ghost var down := InLeft(u.color, u.node, u.right, o);
      Ascend(down, u.left, s);
      SetColor(w.hook.left, Black, down, u.left, s);
      Ascend(down, Blacken(u.left), s);
      u := u.(left := Blacken(u.left));
      ghost var b := WithSibling(c, u);
      Sideways(b, t, s);
      Ascend(b, t, s);
      SetColor(p, Black, c.up, Join(b, t), s);
      RotateRightAt(p, c.up, Blacken(Join(b, t)), s);
      assert Settled(c, t) == RotateRight(Blacken(Join(b, t)));
      FromTop(c.up, Settled(c, t), s);
    }

    /** Fails exactly where the loop, as it is written, reads through a null sibling. Otherwise it ends in the tree
        that the loop has as a function on values; a tree that is red-black but for the subtree at the node,
        which is one black short on every path, is red-black again. */
    method DeleteFixup(node: PriceLevel, ghost c0: LevelContext, ghost t0: LevelTree, ghost s: seq<PriceLevel>)
        returns (ok: bool, ghost r: LevelTree)
      requires View(c0, t0, s) && ShortColors(c0, t0) && t0.node == node
      modifies this`root, members`hook
      ensures ok <==> !Stuck(c0, t0)
      ensures ok ==> View(Top, r, s) && r == Repaired(c0, t0) && NoRedRed(r) && !IsRed(r)
      ensures forall d :: Short(c0, t0, d) ==> ok && Tidy(r, d)
    {
      var x := node;
      r := Leaf;
      ghost var c, t := c0, t0;
      See(c, t, s);
      while x != root && x.hook.color.Black?
        invariant View(c, t, s) && ShortColors(c, t) && t.node == x
        invariant Stuck(c, t) <==> Stuck(c0, t0)
        invariant !Stuck(c, t) ==> Repaired(c, t) == Repaired(c0, t0)
        invariant x.hook.parent == Above(c) && x.hook.color == t.color && (x == root <==> c.Top?)
        decreases Distance(c, t)
      {
        SeeSibling(c, t, s);
        if x == x.hook.parent.hook.left {
          ok, x := RepairFromLeft(x, c, t, s);
        } else {
          ok, x := RepairFromRight(x, c, t, s);
        }
        if !ok {
          NeverStuck(c0, t0);
          return;
        }
        RepairTurnColors(c, t);
        c, t := RepairTurn(c, t).context, RepairTurn(c, t).tree;
        See(c, t, s);
      }
      SetColor(x, Black, c, t, s);
      FromTop(c, Blacken(t), s);
      ok, r := true, Plug(c, Blacken(t));
      RepairedColors(c0, t0);
      NeverStuck(c0, t0);
    }

    // ---------- the public operations ----------

    ghost function Contents(): seq<PriceLevel>
      reads this`tree
    {
      Inorder(tree)
    }

    /** Everything but equal black heights: the links spell out the ghost tree, which is ordered by price. */
    ghost predicate Sound()
      reads this, members`hook
    {
      && View(Top, tree, Contents()) && members == Elements(Contents()) && size == |Contents()|
      && Ordered(side, Contents()) && NoRedRed(tree) && !IsRed(tree)
    }

    ghost predicate Valid()
      reads this, members`hook
    {
      Sound() && Balanced(tree, {})
    }

    constructor (side: Side)
      ensures Valid() && Contents() == [] && this.side == side
    {
      this.side := side;
      root := null;
      size := 0;
      tree := Leaf;
      members := {};
    }

    /** The view during a search: the key, if present, is in the viewed subtree. */
    ghost predicate Searching(c: LevelContext, t: LevelTree, s: seq<PriceLevel>, key: Price)
      reads this`root, this`members, members`hook
    {
      View(c, t, s) && Ordered(side, s) && Between(side, s, |Before(c)|, |s| - |After(c)|, key)
    }

    lemma {:induction false} Descend(c: LevelContext, t: LevelTree, s: seq<PriceLevel>, key: Price)
      requires Searching(c, t, s, key) && t.Node?
      ensures t.node in members && t.node.hook == TreeNode(Above(c), Root(t.left), Root(t.right), t.color)
      ensures Less(side, key, t.node.price) ==> Searching(InLeft(t.color, t.node, t.right, c), t.left, s, key)
      ensures Less(side, t.node.price, key) ==> Searching(InRight(t.color, t.left, t.node, c), t.right, s, key)
    {
      See(c, t, s);
      Position(c, t, s);
      Ascend(InLeft(t.color, t.node, t.right, c), t.left, s);
      Ascend(InRight(t.color, t.left, t.node, c), t.right, s);
    }

    /** A search that ends in an empty subtree has found the place where the key would go. */
    lemma {:induction false} Missing(c: LevelContext, s: seq<PriceLevel>, key: Price)
      requires Searching(c, Leaf, s, key)
      ensures |Before(c)| + |After(c)| == |s| && s[..|Before(c)|] == Before(c) && s[|Before(c)|..] == After(c)
      ensures Absent(Elements(s), key)
    {
      BetweenAbsent(side, s, |Before(c)|, key);
    }

    /** A red-black tree of n levels is no higher than 2 * log2(n + 1). */
    lemma {:induction false} HeightBound()
      requires Valid()
      ensures Pow2(Height(tree)) <= (|Contents()| + 1) * (|Contents()| + 1)
    {
      LogarithmicHeight(tree);
    }

    /** The search visits at most one level per step down; in a red-black tree that is logarithmic. */
    method FindNode(key: Price) returns (r: PriceLevel?, ghost rounds: nat)
      requires Sound()
      ensures r != null ==> r in members && r.price == key
      ensures r == null ==> Absent(members, key)
      ensures rounds <= Height(tree)
      ensures Valid() ==> Pow2(rounds) <= (|Contents()| + 1) * (|Contents()| + 1)
    {
      hide Linked, NoRedRed, Balanced;
      var current := root;
      ghost var s := Contents();
      ghost var c: LevelContext, t := Top, tree;
      rounds := 0;
      See(c, t, s);
      while current != null
        invariant Searching(c, t, s, key) && current == Root(t)
        invariant rounds + Height(t) <= Height(tree)
        decreases t
      {
        Descend(c, t, s, key);
        rounds := rounds + 1;
        if Less(side, key, current.price) {
          current := current.hook.left;
          c, t := InLeft(t.color, t.node, t.right, c), t.left;
        } else if Less(side, current.price, key) {
          current := current.hook.right;
          c, t := InRight(t.color, t.left, t.node, c), t.right;
        } else {
          FewRounds(rounds);
          return current, rounds;
        }
      }
      FewRounds(rounds);
      Missing(c, s, key);
      r := null;
    }

    lemma {:induction false} FewRounds(rounds: nat)
      requires rounds <= Height(tree)
      ensures Valid() ==> Pow2(rounds) <= (|Contents()| + 1) * (|Contents()| + 1)
    {
      if Valid() {
        HeightBound();
        Pow2Monotone(rounds, Height(tree));
      }
    }

    /** The descent of insert: stops at the key, or below the parent it would get. */
    method FindPlace(key: Price) returns (found: bool, parent: PriceLevel?, ghost c: LevelContext)
      requires Sound()
      ensures found <==> !Absent(members, key)
      ensures !found ==> Searching(c, Leaf, Contents(), key) && parent == Above(c) && Plug(c, Leaf) == tree
      ensures !found && c.InLeft? ==> Less(side, key, c.node.price)
      ensures !found && c.InRight? ==> Less(side, c.node.price, key)
    {
      parent := null;
      var current := root;
      ghost var s, t := Contents(), tree;
      c := Top;
      See(c, t, s);
      while current != null
        invariant Searching(c, t, s, key) && current == Root(t) && parent == Above(c)
        invariant Plug(c, t) == tree
        invariant c.InLeft? ==> Less(side, key, c.node.price)
        invariant c.InRight? ==> Less(side, c.node.price, key)
        decreases t
      {
        parent := current;
        Descend(c, t, s, key);
        if Less(side, key, current.price) {
          current := current.hook.left;
          c, t := InLeft(t.color, t.node, t.right, c), t.left;
        } else if Less(side, current.price, key) {
          current := current.hook.right;
          c, t := InRight(t.color, t.left, t.node, c), t.right;
        } else {
          return true, parent, c;
        }
      }
      Missing(c, s, key);
      found := false;
    }

    method Insert(value: PriceLevel) returns (inserted: bool, ghost k: nat)
      requires Sound() && value !in members
      modifies this, members`hook, value`hook
      ensures Sound() && (old(Valid()) ==> Valid()) && inserted == Absent(old(members), value.price)
      ensures !inserted ==> unchanged(this) && unchanged(members`hook) && unchanged(value`hook)
      ensures inserted ==> InsertedAt(Contents(), old(Contents()), k, value) && members == old(members) + {value}
      ensures inserted ==> tree == Insertion(old(tree), k, value)
    {
      var found, parent, c := FindPlace(value.price);
      k := 0;
      if found {
        return false, 0;
      }
      k := PlaceFound(c, value);
      InsertAt(value, parent, c, Contents());
      return true, k;
    }

    method InsertAt(value: PriceLevel, parent: PriceLevel?, ghost c: LevelContext, ghost s: seq<PriceLevel>)
      requires View(c, Leaf, s) && value !in members && parent == Above(c)
      requires c.InLeft? ==> Less(side, value.price, c.node.price)
      requires c.InRight? ==> Less(side, c.node.price, value.price)
      requires ClimbColors(c, Node(Red, Leaf, value, Leaf))
      requires var s' := Before(c) + [value] + After(c);
        Ordered(side, s') && Elements(s') == members + {value} && |s'| == size + 1
      modifies this, members`hook, value`hook
      ensures Sound() && Contents() == Before(c) + [value] + After(c) && members == old(members) + {value}
      ensures tree == Climbed(c, Node(Red, Leaf, value, Leaf))
      ensures Climbing(c, Node(Red, Leaf, value, Leaf)) ==> Valid()
    {
      Attach(value, parent, c, s);
      size := size + 1;
      tree := InsertFixup(value, c, Node(Red, Leaf, value, Leaf), Before(c) + [value] + After(c));
      WholePlug(Top, tree);
    }

    /** The place a search ends in keeps the order. */
    lemma {:induction false} PlaceOrdered(c: LevelContext, value: PriceLevel) returns (k: nat)
      requires Sound() && Searching(c, Leaf, Contents(), value.price)
      ensures var s' := Before(c) + [value] + After(c);
        && InsertedAt(s', Contents(), k, value) && |s'| == size + 1 && k == |Before(c)|
        && Ordered(side, s') && Elements(s') == members + {value}
    {
      hide Linked, NoRedRed, Ordered, Elements, Before, After, Inorder, Plug;
      k := |Before(c)|;
      Missing(c, Contents(), value.price);
      OrderedInsert(side, Contents(), k, value);
      ElementsInsert(Contents(), k, value);
    }

    /** A new red leaf may stand where the search ends, and the climb from there is insertion at its position. */
    lemma {:induction false} PlaceColored(c: LevelContext, value: PriceLevel)
      requires Sound() && Plug(c, Leaf) == tree
      ensures var red := Node(Red, Leaf, value, Leaf);
        && ClimbColors(c, red) && (Valid() ==> Climbing(c, red))
        && |Before(c)| <= |Inorder(tree)| && Climbed(c, red) == Insertion(tree, |Before(c)|, value)
    {
      hide Linked, Ordered, Elements, Climbed, View, Plug;
      UnplugColors(c, Leaf);
      HoleBelow(c, Leaf, 0);
      if Valid() {
        UnplugTidy(c, Leaf, {});
      }
    }

    /** The place a search ends in is fit for a new red node. */
    lemma {:induction false} PlaceFound(c: LevelContext, value: PriceLevel) returns (k: nat)
      requires Sound() && Searching(c, Leaf, Contents(), value.price) && Plug(c, Leaf) == tree
      ensures var s' := Before(c) + [value] + After(c);
        && InsertedAt(s', Contents(), k, value) && |s'| == size + 1
        && Ordered(side, s') && Elements(s') == members + {value}
      ensures ClimbColors(c, Node(Red, Leaf, value, Leaf)) && (Valid() ==> Climbing(c, Node(Red, Leaf, value, Leaf)))
      ensures Climbed(c, Node(Red, Leaf, value, Leaf)) == Insertion(tree, k, value)
    {
      hide *;
      k := PlaceOrdered(c, value);
      PlaceColored(c, value);
    }

    method Attach(value: PriceLevel, parent: PriceLevel?, ghost c: LevelContext, ghost s: seq<PriceLevel>)
      requires View(c, Leaf, s) && value !in members && parent == Above(c)
      requires c.InLeft? ==> Less(side, value.price, c.node.price)
      requires c.InRight? ==> Less(side, c.node.price, value.price)
      modifies this`root, this`members, members`hook, value`hook
      ensures members == old(members) + {value}
      ensures View(c, Node(Red, Leaf, value, Leaf), Before(c) + [value] + After(c))
    {
      ghost var m := HeapLinks();
      See(c, Leaf, s);
      value.hook := TreeNode(parent, null, null, Red);
      if parent == null {
        root := value;
      } else if Less(side, value.price, parent.price) {
        parent.hook := parent.hook.(left := value);
      } else {
        parent.hook := parent.hook.(right := value);
      }
      members := members + {value};
      LinkedMembers(c, Leaf, old(root), m);
      Attached(c, value, old(root), root, m, HeapLinks());
    }

    // ---------- removal ----------

    method MinimumNode(n: PriceLevel, ghost c: LevelContext, ghost t: LevelTree, ghost s: seq<PriceLevel>)
        returns (r: PriceLevel)
      requires View(c, t, s) && t.Node? && t.node == n
      ensures r == Leftmost(c, t).tree.node && View(Leftmost(c, t).context, Leftmost(c, t).tree, s)
    {
      r := n;
      ghost var b, u := c, t;
      See(b, u, s);
      while r.hook.left != null
        invariant View(b, u, s) && u.Node? && u.node == r && r.hook.left == Root(u.left)
        invariant Leftmost(b, u) == Leftmost(c, t)
        decreases u
      {
        r := r.hook.left;
        b, u := InLeft(u.color, u.node, u.right, b), u.left;
        Ascend(b, u, s);
        See(b, u, s);
      }
    }

    method MaximumNode(n: PriceLevel, ghost c: LevelContext, ghost t: LevelTree, ghost s: seq<PriceLevel>)
        returns (r: PriceLevel)
      requires View(c, t, s) && t.Node? && t.node == n
      ensures r == Rightmost(c, t).tree.node && View(Rightmost(c, t).context, Rightmost(c, t).tree, s)
    {
      r := n;
      ghost var b, u := c, t;
      See(b, u, s);
      while r.hook.right != null
        invariant View(b, u, s) && u.Node? && u.node == r && r.hook.right == Root(u.right)
        invariant Rightmost(b, u) == Rightmost(c, t)
        decreases u
      {
        r := r.hook.right;
        b, u := InRight(u.color, u.left, u.node, b), u.right;
        Ascend(b, u, s);
        See(b, u, s);
      }
    }

    /** Hangs v where u was: only v's parent link and the link to u from above change. */
    method Transplant(u: PriceLevel, v: PriceLevel?, ghost c: LevelContext)
      requires u in members && u.hook.parent == Above(c) && u != Above(c)
      requires v == null || (v in members && v != Above(c) && v != u)
      requires !c.Top? ==> c.node in members
      requires c.InLeft? ==> c.node.hook.left == u
      requires c.InRight? ==> c.node.hook.left != u
      modifies this`root, members`hook
      ensures root == if c.Top? then v else old(root)
      ensures v != null ==> v.hook == old(v.hook).(parent := Above(c))
      ensures !c.Top? ==> c.node.hook == Hung(c, old(c.node.hook), v)
      ensures forall k :: k in members && k != v && k != Above(c) ==> k.hook == old(k.hook)
    {
      if u.hook.parent == null {
        root := v;
      } else if u == u.hook.parent.hook.left {
        u.hook.parent.hook := u.hook.parent.hook.(left := v);
      } else {
        u.hook.parent.hook := u.hook.parent.hook.(right := v);
      }
      if v != null {
        v.hook := v.hook.(parent := u.hook.parent);
      }
    }

    /** A node with at most one child is bypassed: its child hangs in its place. */
    method Bypass(u: PriceLevel, v: PriceLevel?, ghost c: LevelContext, ghost t: LevelTree, ghost rest: LevelTree,
        ghost s: seq<PriceLevel>)
      requires View(c, t, s) && t.Node? && t.node == u && v == Root(rest)
      requires rest == t.left || rest == t.right
      modifies this`root, members`hook
      ensures Linked(c, rest, root, HeapLinks())
      ensures forall k :: k in members && k != v && k != Above(c) ==> k.hook == old(k.hook)
    {
      ghost var m := HeapLinks();
      SeeChildren(c, t, s);
      Transplant(u, v, c);
      Spliced(c, t, rest, old(root), root, m, HeapLinks());
    }

    lemma {:induction false} SeeChildren(c: LevelContext, t: LevelTree, s: seq<PriceLevel>)
      requires View(c, t, s) && t.Node?
      ensures t.node in members && t.node.hook == TreeNode(Above(c), Root(t.left), Root(t.right), t.color)
      ensures !c.Top? ==> c.node in members && c.node != t.node
      ensures c.InLeft? ==> c.node.hook.left == t.node
      ensures c.InRight? ==> c.node.hook.left != t.node
      ensures t.left.Node? ==> t.left.node in members && t.left.node != Above(c) && t.left.node != t.node
      ensures t.right.Node? ==> t.right.node in members && t.right.node != Above(c) && t.right.node != t.node
      ensures t.left.Node? && t.right.Node? ==> t.left.node != t.right.node
    {
      See(c, t, s);
      assert t.left.Node? ==> t.left.node in Nodes(t.left);
      assert t.right.Node? ==> t.right.node in Nodes(t.right);
      assert !c.Top? ==> c.node in ContextNodes(c);
    }

    /** z has two children and its right child y is its successor: y takes its place and colour. */
    method TakeOver(z: PriceLevel, y: PriceLevel, ghost c: LevelContext, ghost t: LevelTree, ghost s: seq<PriceLevel>)
      requires View(c, t, s) && t.Node? && t.node == z && t.left.Node?
      requires t.right.Node? && t.right.left.Leaf? && t.right.node == y
      modifies this`root, members`hook
      ensures Linked(c, Node(t.color, t.left, y, t.right.right), root, HeapLinks())
    {
      ghost var m := HeapLinks();
      SeeChildren(c, t, s);
      Ascend(InRight(t.color, t.left, z, c), t.right, s);
      See(InRight(t.color, t.left, z, c), t.right, s);
      Transplant(z, y, c);
      y.hook := y.hook.(left := z.hook.left);
      y.hook.left.hook := y.hook.left.hook.(parent := y);
      y.hook := y.hook.(color := z.hook.color);
      TakenOver(c, t, old(root), root, m, HeapLinks());
    }

    /** y, which is not in the tree, takes the place, the children and the colour of z. */
    method Substitute(z: PriceLevel, y: PriceLevel, ghost c: LevelContext, ghost t: LevelTree, ghost s: seq<PriceLevel>)
      requires View(c, t, s) && t.Node? && t.node == z && y in members && y !in Nodes(t) && y !in ContextNodes(c)
      modifies this`root, members`hook
      ensures Linked(c, t.(node := y), root, HeapLinks())
    {
      ghost var m := HeapLinks();
      SeeChildren(c, t, s);
      assert !c.Top? ==> c.node in ContextNodes(c);
      assert t.left.Node? ==> t.left.node in Nodes(t);
      assert t.right.Node? ==> t.right.node in Nodes(t);
      y.hook := y.hook.(right := z.hook.right);
      if y.hook.right != null {
        y.hook.right.hook := y.hook.right.hook.(parent := y);
      }
      Transplant(z, y, c);
      y.hook := y.hook.(left := z.hook.left);
      if y.hook.left != null {
        y.hook.left.hook := y.hook.left.hook.(parent := y);
      }
      y.hook := y.hook.(color := z.hook.color);
      Substituted(c, t, y, old(root), root, m, HeapLinks());
    }

    /** z has two children: its successor leaves its own place and takes over that of z. Returns what hangs
        where the successor was. */
    method SpliceSuccessor(z: PriceLevel, ghost c: LevelContext, ghost t: LevelTree, ghost s: seq<PriceLevel>)
        returns (x: PriceLevel?, color: Color)
      requires View(c, t, s) && t.Node? && t.node == z && t.left.Node? && t.right.Node?
      modifies this`root, members`hook
      ensures Linked(CutTop(c, t).hole, CutTop(c, t).rest, root, HeapLinks())
      ensures x == Root(CutTop(c, t).rest) && color == CutTop(c, t).color
    {
      ghost var c0, m := InRight(t.color, t.left, z, c), Leftmost(Top, t.right);
      SeeChildren(c, t, s);
      Ascend(c0, t.right, s);
      LeftmostGraft(Top, c0, t.right);
      var y := MinimumNode(z.hook.right, c0, t.right, s);
      SeeChildren(Graft(m.context, c0), m.tree, s);
      SuccessorOutside(c, t, s);
      color := y.hook.color;
      x := y.hook.right;
      if y.hook.parent == z {
        TakeOver(z, y, c, t, s);
        LinkedUp(InRight(t.color, t.left, y, c), m.tree.right, root, HeapLinks());
      } else {
        ExchangeSuccessor(z, y, c, t, s);
      }
    }

    /** The successor y lies deeper: it is bypassed first, then takes z's place and children. */
    method ExchangeSuccessor(z: PriceLevel, y: PriceLevel, ghost c: LevelContext, ghost t: LevelTree,
        ghost s: seq<PriceLevel>)
      requires t.Node? && t.node == z && t.left.Node? && t.right.Node? && t.right.left.Node?
      requires var m := Leftmost(Top, t.right);
        m.tree.node == y && View(Graft(m.context, InRight(t.color, t.left, z, c)), m.tree, s)
      modifies this`root, members`hook
      ensures Linked(CutTop(c, t).hole, CutTop(c, t).rest, root, HeapLinks())
    {
      ghost var c0, m := InRight(t.color, t.left, z, c), Leftmost(Top, t.right);
      SuccessorOutside(c, t, s);
      SeeChildren(Graft(m.context, c0), m.tree, s);
      Bypass(y, y.hook.right, Graft(m.context, c0), m.tree, m.tree.right, s);
      LiftGraft(m.context, c0, m.tree.right);
      ghost var t' := Node(t.color, t.left, z, Plug(m.context, m.tree.right));
      Substitute(z, y, c, t', Whole(c, t'));
      LowerGraft(m.context, InRight(t.color, t.left, y, c), m.tree.right);
    }

    /** The successor hangs directly below z exactly when it is z's right child, and is not in what remains of it. */
    lemma {:induction false} SuccessorOutside(c: LevelContext, t: LevelTree, s: seq<PriceLevel>)
      requires t.Node? && t.left.Node? && t.right.Node?
      requires var m := Leftmost(Top, t.right); View(Graft(m.context, InRight(t.color, t.left, t.node, c)), m.tree, s)
      ensures var m := Leftmost(Top, t.right);
        && (m.context.Top? <==> t.right.left.Leaf?)
        && (Above(Graft(m.context, InRight(t.color, t.left, t.node, c))) == t.node <==> m.context.Top?)
        && m.tree.node !in ContextNodes(c)
        && m.tree.node !in Nodes(Node(t.color, t.left, t.node, Plug(m.context, m.tree.right)))
    {
      var m, c0 := Leftmost(Top, t.right), InRight(t.color, t.left, t.node, c);
      NearSuccessor(t.right);
      GraftNodes(m.context, c0);
      PlugNodes(m.context, m.tree.right);
      assert m.tree.node in Nodes(m.tree);
      if !m.context.Top? {
        GraftNodes(m.context.up, c0);
      }
    }

    lemma {:induction false} LiftGraft(sp: LevelContext, c0: LevelContext, t: LevelTree)
      requires Linked(Graft(sp, c0), t, root, HeapLinks()) && !c0.Top?
      ensures Linked(c0.up, Join(c0, Plug(sp, t)), root, HeapLinks())
    {
      GraftPlug(sp, c0, t);
      LinkedPlug(Graft(sp, c0), t, root, HeapLinks());
      LinkedPlug(c0, Plug(sp, t), root, HeapLinks());
      LinkedUp(c0, Plug(sp, t), root, HeapLinks());
    }

    lemma {:induction false} LowerGraft(sp: LevelContext, c0: LevelContext, t: LevelTree)
      requires !c0.Top? && Linked(c0.up, Join(c0, Plug(sp, t)), root, HeapLinks())
      ensures Linked(Graft(sp, c0), t, root, HeapLinks())
    {
      GraftPlug(sp, c0, t);
      LinkedPlug(Graft(sp, c0), t, root, HeapLinks());
      LinkedPlug(c0, Plug(sp, t), root, HeapLinks());
      LinkedUp(c0, Plug(sp, t), root, HeapLinks());
    }

    /** Where the node z is in the tree. */
    ghost function Place(z: PriceLevel): (r: Zip<PriceLevel>)
      requires Sound() && z in members
      reads this, members`hook
      ensures Plug(r.context, r.tree) == tree && r.tree.Node? && r.tree.node == z
      ensures View(r.context, r.tree, Contents())
    {
      InorderElements(tree);
      var r := Locate(Top, tree, z);
      FromTop(r.context, r.tree, Contents());
      r
    }

    /** Removing z would unlink a black node without children that is not the root. */
    ghost predicate LosesBlackNode(z: PriceLevel)
      requires Sound() && z in members
      reads this, members`hook
    {
      LosesBlack(Place(z).context, Place(z).tree)
    }

    /** The three ways of splicing out z. Returns what hangs in the place of the node that left it, and its colour. */
    method Unlink(z: PriceLevel, ghost c: LevelContext, ghost t: LevelTree, ghost s: seq<PriceLevel>)
        returns (x: PriceLevel?, color: Color)
      requires View(c, t, s) && t.Node? && t.node == z
      modifies this`root, members`hook
      ensures Linked(CutTop(c, t).hole, CutTop(c, t).rest, root, HeapLinks())
      ensures x == Root(CutTop(c, t).rest) && color == CutTop(c, t).color
    {
      SeeChildren(c, t, s);
      color := z.hook.color;
      if z.hook.left == null {
        x := z.hook.right;
        Bypass(z, x, c, t, t.right, s);
      } else if z.hook.right == null {
        x := z.hook.left;
        Bypass(z, x, c, t, t.left, s);
      } else {
        x, color := SpliceSuccessor(z, c, t, s);
      }
    }

    /** The unlinked node gets back the hook of a new node and is no longer counted. */
    method Forget(z: PriceLevel, ghost c: LevelContext, ghost t: LevelTree)
      requires Linked(c, t, root, HeapLinks()) && size > 0
      requires z in members && Elements(Whole(c, t)) == members - {z}
      modifies this`size, this`members, z`hook
      ensures View(c, t, Whole(c, t)) && members == old(members) - {z} && size == old(size) - 1
      ensures z.hook == TreeNode(null, null, null, Red)
    {
      ghost var m := HeapLinks();
      WholePlug(c, t);
      PlugNodes(c, t);
      InorderElements(Plug(c, t));
      z.hook := TreeNode(null, null, null, Red);
      size := size - 1;
      members := members - {z};
      LinkedFrame(c, t, root, m, HeapLinks());
    }

    /** The place of a node is the view at its position. */
    lemma {:induction false} PlaceAt(z: PriceLevel, i: nat)
      requires Sound() && z in members && i < |Contents()| && Contents()[i] == z
      ensures NodeAt(Top, tree, i) == Place(z)
    {
      hide Linked, NoRedRed, Ordered, Elements, Before, After, Whole, Plug;
      var c, t := Place(z).context, Place(z).tree;
      Position(c, t, Contents());
      OrderedIndex(side, Contents(), i, |Before(c)| + |Inorder(t.left)|);
      NodeBelow(c, t, |Inorder(t.left)|);
    }

    /** remove, as it is written: the fixup only runs when the node that was spliced out left a child behind. It
        fails exactly where the fixup reads through a null sibling, which no red-black tree lets it do; what it
        leaves of a red-black tree is one exactly if no black leaf was unlinked. */
    method Remove(z: PriceLevel, ghost i: nat) returns (ok: bool)
      requires Sound() && z in members && i < |Contents()| && Contents()[i] == z
      modifies this, members`hook
      ensures ok <==> !RemovalFails(old(tree), i)
      ensures ok ==> Sound() && tree == Removal(old(tree), i)
      ensures ok ==> RemovedAt(Contents(), old(Contents()), i) && members == old(members) - {z}
      ensures ok ==> z.hook == TreeNode(null, null, null, Red)
      ensures old(Valid()) ==> ok && (Balanced(tree, {}) <==> !old(LosesBlackNode(z)))
      ensures old(Valid() && LosesBlackNode(z)) ==>
        tree == Plug(CutAt(old(tree), i).hole, Leaf) && Fits(CutAt(old(tree), i).hole, 1, false, {})
    {
      hide CutTop, Linked, NoRedRed, Balanced, Stuck, LosesBlack, Fits, Rejoined, Repaired;
      ElementsAt(Contents(), i);
      ghost var c, t := Place(z).context, Place(z).tree;
      ghost var cut := CutTop(c, t);
      PlaceAt(z, i);
      RemovalBalance(c, t);
      CutContents(side, Contents(), c, t, i);
      var x, color := Unlink(z, c, t, Contents());
      Forget(z, cut.hole, cut.rest);
      ok := Recolor(x, color, c, t);
    }

    /** The end of remove: the fixup, where a black node left a child behind, and a black root. */
    method Recolor(x: PriceLevel?, color: Color, ghost c: LevelContext, ghost t: LevelTree) returns (ok: bool)
      requires t.Node? && Colored(Plug(c, t))
      requires var cut := CutTop(c, t);
        && View(cut.hole, cut.rest, Whole(cut.hole, cut.rest)) && x == Root(cut.rest) && color == cut.color
      modifies this`root, this`tree, members`hook
      ensures ok <==> !CutFails(CutTop(c, t))
      ensures CutTop(c, t).rest.Node? ==> ShortColors(CutTop(c, t).hole, CutTop(c, t).rest)
      ensures ok ==> View(Top, tree, Contents()) && Contents() == Whole(CutTop(c, t).hole, CutTop(c, t).rest)
      ensures ok ==> tree == Rejoined(CutTop(c, t)) && Colored(tree)
    {
      hide CutTop, Linked, NoRedRed, FitsColors, Plug, Stuck;
      ghost var cut := CutTop(c, t);
      ghost var s := Whole(cut.hole, cut.rest);
      CutColors(c, t);
      if color.Black? && x != null {
        ok, tree := DeleteFixup(x, cut.hole, cut.rest, s);
        if !ok {
          return;
        }
      } else {
        FromTop(cut.hole, cut.rest, s);
        ok, tree := true, Plug(cut.hole, cut.rest);
      }
      See(Top, tree, s);
      if root != null {
        SetColor(root, Black, Top, tree, s);
      }
      tree := Blacken(tree);
      WholePlug(Top, tree);
      RejoinedColors(c, t);
    }

    /** The view of a tree at one of its nodes. */
    lemma {:induction false} ViewAt(r: LevelTree, s: seq<PriceLevel>, y: PriceLevel) returns (z: Zip<PriceLevel>)
      requires View(Top, r, s) && y in Elements(s)
      ensures Plug(z.context, z.tree) == r && z.tree.Node? && z.tree.node == y
      ensures View(z.context, z.tree, s) && y !in ContextNodes(z.context)
    {
      WholePlug(Top, r);
      InorderElements(r);
      z := Locate(Top, r, y);
      FromTop(z.context, z.tree, s);
      assert y in Nodes(z.tree);
    }

    /** A leaving leaf is cut off. */
    method CutOff(y: PriceLevel, ghost c: LevelContext, ghost t: LevelTree, ghost s: seq<PriceLevel>, ghost j: nat)
      requires View(c, t, s) && t.Node? && t.node == y && y !in ContextNodes(c)
      requires Tidy(Plug(c, t), {y}) && !IsRed(Plug(c, t))
      requires Ordered(side, s) && j < |s| && s[j] == y
      modifies this`root, this`tree, members`hook
      ensures Linked(Top, tree, root, HeapLinks()) && Tidy(tree, {}) && !IsRed(tree)
      ensures RemovedAt(Inorder(tree), s, j) && View(Top, tree, Inorder(tree))
    {
      hide NoRedRed, Balanced, Ordered, Elements;
      CutLeaving(c, t);
      Bypass(y, null, c, t, Leaf, s);
      LinkedPlug(c, Leaf, root, HeapLinks());
      CutContents(side, s, c, t, j);
      WholePlug(c, Leaf);
      tree := Plug(c, Leaf);
      WholePlug(Top, tree);
    }

    /** Repair, not in the source: a black leaf y other than the root is made up for by delete_fixup while it is
        still linked, and unlinked afterwards. */
    method DetachBlackLeaf(y: PriceLevel, ghost c: LevelContext, ghost t: LevelTree, ghost s: seq<PriceLevel>,
        ghost j: nat)
      requires View(c, t, s) && t == Node(Black, Leaf, y, Leaf) && Tidy(Plug(c, t), {}) && !IsRed(Plug(c, t))
      requires Ordered(side, s) && j < |s| && s[j] == y
      modifies this`root, this`tree, members`hook
      ensures Linked(Top, tree, root, HeapLinks()) && Tidy(tree, {}) && !IsRed(tree)
      ensures RemovedAt(Inorder(tree), s, j) && View(Top, tree, Inorder(tree))
    {
      LeavingShort(c, t);
      ShortenedColors(c, t, {y});
      var ok;
      ghost var r;
      ok, r := DeleteFixup(y, c, t, s);
      ElementsAt(s, j);
      ghost var z := ViewAt(r, s, y);
      CutOff(y, z.context, z.tree, s, j);
    }

    /** y, which has been detached, takes the place of z. */
    method PutInPlace(z: PriceLevel, y: PriceLevel, ghost s: seq<PriceLevel>, ghost i: nat)
      requires View(Top, tree, s) && Tidy(tree, {}) && !IsRed(tree)
      requires i < |s| && s[i] == z && Ordered(side, s)
      requires y in members && y !in Elements(s)
      modifies this`root, this`tree, members`hook
      ensures Linked(Top, tree, root, HeapLinks()) && Tidy(tree, {}) && !IsRed(tree)
      ensures Contents() == s[i := y]
    {
      ElementsAt(s, i);
      ghost var p := ViewAt(tree, s, z);
      ghost var c, t := p.context, p.tree;
      ViewNodes(c, t, s);
      Substitute(z, y, c, t, s);
      LinkedPlug(c, t.(node := y), root, HeapLinks());
      RenameTidy(c, t, y);
      RenameContents(side, s, c, t, y, i);
      tree := Plug(c, t.(node := y));
    }

    lemma {:induction false} ViewNodes(c: LevelContext, t: LevelTree, s: seq<PriceLevel>)
      requires View(c, t, s)
      ensures Nodes(t) + ContextNodes(c) == Elements(s)
    {
      WholePlug(c, t);
      PlugNodes(c, t);
      InorderElements(Plug(c, t));
    }

    /** The node that remove would splice out: z itself, or its successor if it has two children. */
    method FindSpliced(z: PriceLevel, ghost c: LevelContext, ghost t: LevelTree, ghost s: seq<PriceLevel>)
        returns (y: PriceLevel)
      requires View(c, t, s) && t.Node? && t.node == z
      ensures var o := SplicedOut(c, t); y == o.tree.node && View(o.context, o.tree, s)
      ensures y != z ==> t.right.Node? && y == Leftmost(InRight(t.color, t.left, z, c), t.right).tree.node
    {
      SeeChildren(c, t, s);
      y := z;
      if z.hook.left != null && z.hook.right != null {
        Ascend(InRight(t.color, t.left, z, c), t.right, s);
        y := MinimumNode(z.hook.right, InRight(t.color, t.left, z, c), t.right, s);
      }
    }

    /** Repair, not in the source: remove with the missing case, so that the tree is red-black again in every case. */
    method RemoveRebalanced(z: PriceLevel, ghost i: nat)
      requires Valid() && i < |Contents()| && Contents()[i] == z
      modifies this, members`hook
      ensures Valid() && RemovedAt(Contents(), old(Contents()), i) && members == old(members) - {z}
      ensures z.hook == TreeNode(null, null, null, Red)
    {
      ElementsAt(Contents(), i);
      ghost var s, c, t := Contents(), Place(z).context, Place(z).tree;
      var y := FindSpliced(z, c, t, s);
      ghost var o := SplicedOut(c, t);
      SplicedOutLoses(c, t);
      See(o.context, o.tree, s);
      if y.hook.color.Black? && y.hook.left == null && y.hook.right == null && y != root {
        SuccessorIndex(side, s, c, t, y, i);
        RemoveBlackLeaf(z, y, o.context, o.tree, i);
      } else {
        var _ := Remove(z, i);
      }
    }

    method DetachAndReplace(z: PriceLevel, y: PriceLevel, ghost b: LevelContext, ghost u: LevelTree,
        ghost s: seq<PriceLevel>, ghost i: nat)
      requires View(b, u, s) && u == Node(Black, Leaf, y, Leaf) && Tidy(Plug(b, u), {}) && !IsRed(Plug(b, u))
      requires Ordered(side, s) && y in members && z != y && i + 1 < |s| && s[i] == z && s[i + 1] == y
      modifies this`root, this`tree, members`hook
      ensures Linked(Top, tree, root, HeapLinks()) && Tidy(tree, {}) && !IsRed(tree)
      ensures RemovedAt(Contents(), s, i)
    {
      OrderedRemove(side, s, i + 1);
      Overwrite(s, i);
      DetachBlackLeaf(y, b, u, s, i + 1);
      PutInPlace(z, y, Omit(s, i + 1), i);
    }

    method UnlinkBlackLeaf(z: PriceLevel, y: PriceLevel, ghost b: LevelContext, ghost u: LevelTree,
        ghost s: seq<PriceLevel>, ghost i: nat)
      requires View(b, u, s) && u == Node(Black, Leaf, y, Leaf) && Tidy(Plug(b, u), {}) && !IsRed(Plug(b, u))
      requires Ordered(side, s) && y in members && i < |s| && s[i] == z
      requires y != z ==> i + 1 < |s| && s[i + 1] == y
      modifies this`root, this`tree, members`hook
      ensures Linked(Top, tree, root, HeapLinks()) && Tidy(tree, {}) && !IsRed(tree)
      ensures RemovedAt(Contents(), s, i)
    {
      if y != z {
        DetachAndReplace(z, y, b, u, s, i);
      } else {
        DetachBlackLeaf(y, b, u, s, i);
      }
    }

    method RemoveBlackLeaf(z: PriceLevel, y: PriceLevel, ghost b: LevelContext, ghost u: LevelTree, ghost i: nat)
      requires Valid() && i < |Contents()| && Contents()[i] == z
      requires View(b, u, Contents()) && u == Node(Black, Leaf, y, Leaf) && Plug(b, u) == tree
      requires y != z ==> i + 1 < |Contents()| && Contents()[i + 1] == y
      modifies this, members`hook
      ensures Valid() && RemovedAt(Contents(), old(Contents()), i) && members == old(members) - {z}
      ensures z.hook == TreeNode(null, null, null, Red)
    {
      hide Ordered, Elements, Linked;
      SeeChildren(b, u, Contents());
      OrderedRemove(side, Contents(), i);
      UnlinkBlackLeaf(z, y, b, u, Contents(), i);
      WholePlug(Top, tree);
      Forget(z, Top, tree);
    }

    // ---------- walking in order ----------

    method Minimum() returns (r: PriceLevel?)
      requires Sound()
      ensures r == if Contents() == [] then null else Contents()[0]
    {
      ghost var s := Contents();
      See(Top, tree, s);
      if root == null {
        return null;
      }
      r := MinimumNode(root, Top, tree, s);
      Position(Leftmost(Top, tree).context, Leftmost(Top, tree).tree, s);
    }

    method Successor(n: PriceLevel, ghost i: nat) returns (r: PriceLevel?)
      requires Sound() && i < |Contents()| && Contents()[i] == n
      ensures r == if i + 1 < |Contents()| then Contents()[i + 1] else null
    {
      ghost var s := Contents();
      ElementsAt(s, i);
      ghost var z := ViewAt(tree, s, n);
      r := Next(n, z.context, z.tree, s, i);
    }

    method Next(n: PriceLevel, ghost c: LevelContext, ghost t: LevelTree, ghost s: seq<PriceLevel>, ghost i: nat)
        returns (r: PriceLevel?)
      requires View(c, t, s) && t.Node? && t.node == n && Ordered(side, s) && i < |s| && s[i] == n
      ensures r == if i + 1 < |s| then s[i + 1] else null
    {
      SeeChildren(c, t, s);
      Neighbours(side, c, t, s, i);
      if n.hook.right != null {
        Ascend(InRight(t.color, t.left, n, c), t.right, s);
        r := MinimumNode(n.hook.right, InRight(t.color, t.left, n, c), t.right, s);
      } else {
        r := NextAbove(n, c, t, s);
      }
    }

    /** The first node above n that n lies to the left of. */
    method NextAbove(n: PriceLevel, ghost c0: LevelContext, ghost t0: LevelTree, ghost s: seq<PriceLevel>)
        returns (parent: PriceLevel?)
      requires View(c0, t0, s) && t0.Node? && t0.node == n
      ensures parent == if After(c0) == [] then null else After(c0)[0]
    {
      var node := n;
      ghost var c, t := c0, t0;
      SeeChildren(c, t, s);
      parent := n.hook.parent;
      while parent != null && node == parent.hook.right
        invariant View(c, t, s) && t.Node? && t.node == node && parent == Above(c)
        invariant After(c) == After(c0)
        decreases Depth(c)
      {
        SeeFamily(c, t, s);
        node := parent;
        parent := parent.hook.parent;
        c, t := c.up, Join(c, t);
      }
      if parent != null {
        SeeFamily(c, t, s);
      }
    }

    method Predecessor(n: PriceLevel, ghost i: nat) returns (r: PriceLevel?)
      requires Sound() && i < |Contents()| && Contents()[i] == n
      ensures r == if i > 0 then Contents()[i - 1] else null
    {
      ghost var s := Contents();
      ElementsAt(s, i);
      ghost var z := ViewAt(tree, s, n);
      r := Previous(n, z.context, z.tree, s, i);
    }

    method Previous(n: PriceLevel, ghost c: LevelContext, ghost t: LevelTree, ghost s: seq<PriceLevel>, ghost i: nat)
        returns (r: PriceLevel?)
      requires View(c, t, s) && t.Node? && t.node == n && Ordered(side, s) && i < |s| && s[i] == n
      ensures r == if i > 0 then s[i - 1] else null
    {
      SeeChildren(c, t, s);
      Neighbours(side, c, t, s, i);
      if n.hook.left != null {
        Ascend(InLeft(t.color, n, t.right, c), t.left, s);
        r := MaximumNode(n.hook.left, InLeft(t.color, n, t.right, c), t.left, s);
      } else {
        r := NextBelow(n, c, t, s);
      }
    }

    method NextBelow(n: PriceLevel, ghost c0: LevelContext, ghost t0: LevelTree, ghost s: seq<PriceLevel>)
        returns (parent: PriceLevel?)
      requires View(c0, t0, s) && t0.Node? && t0.node == n
      ensures parent == if Before(c0) == [] then null else Before(c0)[|Before(c0)| - 1]
    {
      var node := n;
      ghost var c, t := c0, t0;
      SeeChildren(c, t, s);
      parent := n.hook.parent;
      while parent != null && node == parent.hook.left
        invariant View(c, t, s) && t.Node? && t.node == node && parent == Above(c)
        invariant Before(c) == Before(c0)
        decreases Depth(c)
      {
        SeeFamily(c, t, s);
        node := parent;
        parent := parent.hook.parent;
        c, t := c.up, Join(c, t);
      }
      if parent != null {
        SeeFamily(c, t, s);
      }
    }
  }

  lemma {:induction false} SuccessorIndex(side: Side, s: seq<PriceLevel>, c: LevelContext, t: LevelTree, y: PriceLevel,
      i: nat)
    requires t.Node? && Whole(c, t) == s && Ordered(side, s) && i < |s| && s[i] == t.node
    requires y != t.node ==> t.right.Node? && y == Leftmost(InRight(t.color, t.left, t.node, c), t.right).tree.node
    ensures y != t.node ==> i + 1 < |s| && s[i + 1] == y
  {
    if y != t.node {
      NextInOrder(c, t);
      OrderedIndex(side, s, i, |Before(c)| + |Inorder(t.left)|);
    }
  }

  /** The in-order sequence once the top of `t` is cut out. */
  lemma {:induction false} CutContents(side: Side, s: seq<PriceLevel>, c: LevelContext, t: LevelTree, i: nat)
    requires t.Node? && Whole(c, t) == s && i < |s| && s[i] == t.node && Ordered(side, s)
    ensures var s' := Whole(CutTop(c, t).hole, CutTop(c, t).rest);
      RemovedAt(s', s, i) && Ordered(side, s') && Elements(s') == Elements(s) - {t.node}
  {
    CutWhole(c, t);
    OrderedIndex(side, s, i, |Before(c)| + |Inorder(t.left)|);
    OrderedRemove(side, s, i);
  }

  /** Another node in the place of the top of `t` is another element at its position. */
  lemma {:induction false} RenameContents(side: Side, s: seq<PriceLevel>, c: LevelContext, t: LevelTree, n: PriceLevel,
      i: nat)
    requires t.Node? && Whole(c, t) == s && i < |s| && s[i] == t.node && Ordered(side, s)
    ensures Inorder(Plug(c, t.(node := n))) == s[i := n]
  {
    Position(c, t, s);
    OrderedIndex(side, s, i, |Before(c)| + |Inorder(t.left)|);
    WholePlug(c, t.(node := n));
    Overlay(Before(c), Inorder(t.left), t.node, n, Inorder(t.right), After(c));
  }

  lemma {:induction false} Overlay<T>(b: seq<T>, l: seq<T>, x: T, n: T, r: seq<T>, a: seq<T>)
    ensures b + (l + [n] + r) + a == (b + (l + [x] + r) + a)[|b| + |l| := n]
  {
  }

  /** The links of every node of the tree are known. */
  lemma {:induction false} LinkedMembers(c: LevelContext, t: LevelTree, root: PriceLevel?, m: Links)
    requires Linked(c, t, root, m)
    ensures Nodes(t) + ContextNodes(c) <= m.Keys
  {
    MirrorsMembers(t, Above(c), m);
    MirrorsContextMembers(c, Root(t), root, m);
  }

  lemma {:induction false} MirrorsMembers(t: LevelTree, p: PriceLevel?, m: Links)
    requires Mirrors(t, p, m)
    ensures Nodes(t) <= m.Keys
  {
    if t.Node? {
      MirrorsMembers(t.left, t.node, m);
      MirrorsMembers(t.right, t.node, m);
    }
  }

  lemma {:induction false} MirrorsContextMembers(c: LevelContext, hole: PriceLevel?, root: PriceLevel?, m: Links)
    requires MirrorsContext(c, hole, root, m)
    ensures ContextNodes(c) <= m.Keys
  {
    if !c.Top? {
      MirrorsMembers(c.sibling, c.node, m);
      MirrorsContextMembers(c.up, c.node, root, m);
    }
  }

  /** Where the parts of the view lie in the whole sequence. */
  lemma {:induction false} Position(c: LevelContext, t: LevelTree, s: seq<PriceLevel>)
    requires t.Node? && Whole(c, t) == s
    ensures var k := |Before(c)| + |Inorder(t.left)|;
      && 0 <= k < |s| && s[k] == t.node
      && |Before(InLeft(t.color, t.node, t.right, c))| == |Before(c)|
      && |s| - |After(InLeft(t.color, t.node, t.right, c))| == k
      && |Before(InRight(t.color, t.left, t.node, c))| == k + 1
      && |s| - |After(InRight(t.color, t.left, t.node, c))| == |s| - |After(c)|
      && k < |s| - |After(c)|
  {
    assert |Inorder(t)| == |Inorder(t.left)| + 1 + |Inorder(t.right)|;
    assert Inorder(t)[|Inorder(t.left)|] == t.node;
  }

  /** What comes before and after a node without a child on that side. */
  lemma {:induction false} Neighbours(side: Side, c: LevelContext, t: LevelTree, s: seq<PriceLevel>, i: nat)
    requires t.Node? && Whole(c, t) == s && Ordered(side, s) && i < |s| && s[i] == t.node
    ensures t.right.Leaf? ==> if After(c) == [] then i + 1 == |s| else i + 1 < |s| && s[i + 1] == After(c)[0]
    ensures t.left.Leaf? ==> if Before(c) == [] then i == 0 else i > 0 && s[i - 1] == Before(c)[|Before(c)| - 1]
    ensures t.right.Node? ==>
      i + 1 < |s| && s[i + 1] == Leftmost(InRight(t.color, t.left, t.node, c), t.right).tree.node
    ensures t.left.Node? ==> i > 0 && s[i - 1] == Rightmost(InLeft(t.color, t.node, t.right, c), t.left).tree.node
  {
    Position(c, t, s);
    OrderedIndex(side, s, i, |Before(c)| + |Inorder(t.left)|);
    if t.right.Node? {
      NextInOrder(c, t);
    } else {
      assert s == (Before(c) + Inorder(t.left) + [t.node]) + After(c);
    }
    if t.left.Node? {
      PreviousInOrder(c, t);
    }
  }
}
