/** How the parent and child links of the levels spell out a tree. The links of a set of levels are
    taken as one map, so that these lemmas compare two states of the heap without reading it. */
module TreeLinks {
  import opened TreeShape
  import opened Levels

  type LevelTree = Tree<PriceLevel>
  type LevelContext = Context<PriceLevel>
  type Links = map<PriceLevel, TreeNode>

  ghost function Root(t: LevelTree): PriceLevel? { if t.Leaf? then null else t.node }
  ghost function Above(c: LevelContext): PriceLevel? { if c.Top? then null else c.node }

  ghost predicate Mirrors(t: LevelTree, parent: PriceLevel?, m: Links) {
    t.Leaf? || (
      && t.node in m && m[t.node] == TreeNode(parent, Root(t.left), Root(t.right), t.color)
      && Mirrors(t.left, t.node, m) && Mirrors(t.right, t.node, m))
  }

  ghost predicate MirrorsContext(c: LevelContext, hole: PriceLevel?, root: PriceLevel?, m: Links)
    decreases c
  {
    match c
    case Top => root == hole
    case InLeft(color, n, s, up) =>
      && n in m && m[n] == TreeNode(Above(up), hole, Root(s), color)
      && Mirrors(s, n, m) && MirrorsContext(up, n, root, m)
    case InRight(color, s, n, up) =>
      && n in m && m[n] == TreeNode(Above(up), Root(s), hole, color)
      && Mirrors(s, n, m) && MirrorsContext(up, n, root, m)
  }

  /** The links, read from `root`, spell out Plug(c, t). */
  ghost predicate Linked(c: LevelContext, t: LevelTree, root: PriceLevel?, m: Links) {
    SeparateZip(c, t) && Mirrors(t, Above(c), m) && MirrorsContext(c, Root(t), root, m)
  }

  // ---------- moving the view ----------

  lemma {:induction false} LinkedUp(c: LevelContext, t: LevelTree, root: PriceLevel?, m: Links)
    requires !c.Top?
    ensures Linked(c, t, root, m) <==> Linked(c.up, Join(c, t), root, m)
  {
  }

  lemma {:induction false} LinkedPlug(c: LevelContext, t: LevelTree, root: PriceLevel?, m: Links)
    ensures Linked(c, t, root, m) <==> Linked(Top, Plug(c, t), root, m)
    decreases c
  {
    if !c.Top? {
      LinkedUp(c, t, root, m);
      LinkedPlug(c.up, Join(c, t), root, m);
    }
  }

  /** What the link fields hold around the view. */
  ghost predicate Around(c: LevelContext, t: LevelTree, root: PriceLevel?, m: Links) {
    && (t.Node? ==> t.node in m && m[t.node] == TreeNode(Above(c), Root(t.left), Root(t.right), t.color))
    && (t.Node? && t.left.Node? ==> t.left.node in m && m[t.left.node].color == t.left.color)
    && (t.Node? && t.right.Node? ==> t.right.node in m && m[t.right.node].color == t.right.color)
    && match c
       case Top => root == Root(t)
       case InLeft(color, n, s, up) =>
         && root != null && (t.Node? ==> root != t.node)
         && n in m && m[n] == TreeNode(Above(up), Root(t), Root(s), color) && (t.Node? ==> Root(s) != t.node)
       case InRight(color, s, n, up) =>
         && root != null && (t.Node? ==> root != t.node)
         && n in m && m[n] == TreeNode(Above(up), Root(s), Root(t), color) && (t.Node? ==> Root(s) != t.node)
  }

  lemma {:induction false} RootInside(c: LevelContext, hole: PriceLevel?, root: PriceLevel?, m: Links)
    requires MirrorsContext(c, hole, root, m) && !c.Top?
    ensures root != null && root in ContextNodes(c)
  {
    if !c.up.Top? {
      RootInside(c.up, c.node, root, m);
    }
  }

  lemma {:induction false} Look(c: LevelContext, t: LevelTree, root: PriceLevel?, m: Links)
    requires Linked(c, t, root, m)
    ensures Around(c, t, root, m)
  {
    assert t.Node? ==> Mirrors(t.left, t.node, m) && Mirrors(t.right, t.node, m);
    if !c.Top? {
      RootInside(c, Root(t), root, m);
    }
  }

  // ---------- what does not change when other links are written ----------

  ghost predicate Same(n: PriceLevel, m: Links, m': Links) { n in m ==> n in m' && m'[n] == m[n] }

  lemma {:induction false} Frame(t: LevelTree, parent: PriceLevel?, m: Links, m': Links)
    requires Mirrors(t, parent, m)
    requires forall n :: n in Nodes(t) ==> Same(n, m, m')
    ensures Mirrors(t, parent, m')
  {
    if t.Node? {
      assert Same(t.node, m, m');
      Frame(t.left, t.node, m, m');
      Frame(t.right, t.node, m, m');
    }
  }

  lemma {:induction false} FrameContext(c: LevelContext, hole: PriceLevel?, root: PriceLevel?, m: Links, m': Links)
    requires MirrorsContext(c, hole, root, m)
    requires forall n :: n in ContextNodes(c) ==> Same(n, m, m')
    ensures MirrorsContext(c, hole, root, m')
  {
    if !c.Top? {
      assert Same(c.node, m, m');
      Frame(c.sibling, c.node, m, m');
      FrameContext(c.up, c.node, root, m, m');
    }
  }

  lemma {:induction false} LinkedFrame(c: LevelContext, t: LevelTree, root: PriceLevel?, m: Links, m': Links)
    requires Linked(c, t, root, m)
    requires forall n :: n in Nodes(t) + ContextNodes(c) ==> Same(n, m, m')
    ensures Linked(c, t, root, m')
  {
    Frame(t, Above(c), m, m');
    FrameContext(c, Root(t), root, m, m');
  }

  /** The hook of the node above the hole once `v` hangs in the hole. */
  ghost function Hung(c: LevelContext, k: TreeNode, v: PriceLevel?): TreeNode {
    match c
    case Top => k
    case InLeft(_, _, _, _) => k.(left := v)
    case InRight(_, _, _, _) => k.(right := v)
  }

  lemma {:induction false} Relink(c: LevelContext, hole: PriceLevel?, v: PriceLevel?, root: PriceLevel?,
      root': PriceLevel?, m: Links, m': Links)
    requires SeparateContext(c) && MirrorsContext(c, hole, root, m)
    requires root' == if c.Top? then v else root
    requires forall n :: n in ContextNodes(c) && n != Above(c) ==> Same(n, m, m')
    requires !c.Top? ==> c.node in m' && m'[c.node] == Hung(c, m[c.node], v)
    ensures MirrorsContext(c, v, root', m')
  {
    if !c.Top? {
      Frame(c.sibling, c.node, m, m');
      FrameContext(c.up, c.node, root, m, m');
    }
  }

  lemma {:induction false} Reparent(t: LevelTree, p: PriceLevel?, q: PriceLevel?, m: Links, m': Links)
    requires Separate(t) && Mirrors(t, p, m)
    requires t.Node? ==> t.node in m' && m'[t.node] == m[t.node].(parent := q)
    requires forall n :: n in Nodes(t) && n != Root(t) ==> Same(n, m, m')
    ensures Mirrors(t, q, m')
  {
    if t.Node? {
      Frame(t.left, t.node, m, m');
      Frame(t.right, t.node, m, m');
    }
  }

  // ---------- repainting one node ----------

  lemma {:induction false} Painted(c: LevelContext, t: LevelTree, color: Color, root: PriceLevel?, m: Links, m': Links)
    requires Linked(c, t, root, m) && t.Node?
    requires t.node in m' && m'[t.node] == m[t.node].(color := color)
    requires forall n :: n != t.node ==> Same(n, m, m')
    ensures Linked(c, t.(color := color), root, m')
  {
    Frame(t.left, t.node, m, m');
    Frame(t.right, t.node, m, m');
    FrameContext(c, t.node, root, m, m');
    assert Nodes(t.(color := color)) == Nodes(t);
  }

  // ---------- rotations ----------

  /** The pieces around an edge between x and y are pairwise disjoint. */
  ghost predicate Apart(c: LevelContext, x: PriceLevel, y: PriceLevel, a: LevelTree, b: LevelTree, d: LevelTree) {
    && x != y && x !in ContextNodes(c) && y !in ContextNodes(c)
    && x !in Nodes(a) && x !in Nodes(b) && x !in Nodes(d)
    && y !in Nodes(a) && y !in Nodes(b) && y !in Nodes(d)
    && Nodes(a) !! Nodes(b) !! Nodes(d) && (Nodes(a) + Nodes(b) + Nodes(d)) !! ContextNodes(c)
    && Separate(a) && Separate(b) && Separate(d) && SeparateContext(c)
  }

  lemma {:induction false} ApartRight(c: LevelContext, color: Color, a: LevelTree, x: PriceLevel, r: LevelTree)
    requires r.Node?
    ensures SeparateZip(c, Node(color, a, x, r)) <==> Apart(c, x, r.node, a, r.left, r.right)
  {
    assert Nodes(Node(color, a, x, r)) == Nodes(a) + {x} + Nodes(r);
    if SeparateZip(c, Node(color, a, x, r)) {
      assert Separate(r);
    }
    if Apart(c, x, r.node, a, r.left, r.right) {
      assert Nodes(r.left) !! Nodes(r.right);
      assert Separate(r);
    }
  }

  lemma {:induction false} ApartLeft(c: LevelContext, color: Color, l: LevelTree, y: PriceLevel, d: LevelTree)
    requires l.Node?
    ensures SeparateZip(c, Node(color, l, y, d)) <==> Apart(c, l.node, y, l.left, l.right, d)
  {
    assert Nodes(Node(color, l, y, d)) == Nodes(l) + {y} + Nodes(d);
    if SeparateZip(c, Node(color, l, y, d)) {
      assert Separate(l);
    }
    if Apart(c, l.node, y, l.left, l.right, d) {
      assert Nodes(l.left) !! Nodes(l.right);
      assert Separate(l);
    }
  }

  /** How the node above the hole refers to the top of the subtree in it. */
  ghost predicate Below(c: LevelContext, x: PriceLevel, root: PriceLevel?, m: Links) {
    match c
    case Top => root == x
    case InLeft(_, n, _, _) => n in ContextNodes(c) && n in m && m[n].left == x && m[n].right != x
    case InRight(_, _, n, _) => n in ContextNodes(c) && n in m && m[n].right == x && m[n].left != x
  }

  /** Linked(c, t, root, m), spelled out for the edge from the top of t to its right child. */
  ghost predicate EdgeRight(c: LevelContext, t: LevelTree, root: PriceLevel?, m: Links)
    requires t.Node? && t.right.Node?
  {
    var x, y, a, b, d := t.node, t.right.node, t.left, t.right.left, t.right.right;
    && Apart(c, x, y, a, b, d)
    && x in m && m[x] == TreeNode(Above(c), Root(a), y, t.color)
    && y in m && m[y] == TreeNode(x, Root(b), Root(d), t.right.color)
    && (b.Node? ==> b.node in m && b.node in Nodes(b)) && Below(c, x, root, m)
    && Mirrors(a, x, m) && Mirrors(b, y, m) && Mirrors(d, y, m) && MirrorsContext(c, x, root, m)
  }

  lemma {:induction false} OpenRight(c: LevelContext, t: LevelTree, root: PriceLevel?, m: Links)
    requires t.Node? && t.right.Node?
    ensures Linked(c, t, root, m) <==> EdgeRight(c, t, root, m)
  {
    ApartRight(c, t.color, t.left, t.node, t.right);
    var r := t.right;
    assert Mirrors(r, t.node, m) <==>
      (r.node in m && m[r.node] == TreeNode(t.node, Root(r.left), Root(r.right), r.color)
       && Mirrors(r.left, r.node, m) && Mirrors(r.right, r.node, m));
  }

  ghost predicate EdgeLeft(c: LevelContext, t: LevelTree, root: PriceLevel?, m: Links)
    requires t.Node? && t.left.Node?
  {
    var x, y, a, b, d := t.left.node, t.node, t.left.left, t.left.right, t.right;
    && Apart(c, x, y, a, b, d)
    && y in m && m[y] == TreeNode(Above(c), x, Root(d), t.color)
    && x in m && m[x] == TreeNode(y, Root(a), Root(b), t.left.color)
    && (b.Node? ==> b.node in m && b.node in Nodes(b)) && Below(c, y, root, m)
    && Mirrors(a, x, m) && Mirrors(b, x, m) && Mirrors(d, y, m) && MirrorsContext(c, y, root, m)
  }

  lemma {:induction false} OpenLeft(c: LevelContext, t: LevelTree, root: PriceLevel?, m: Links)
    requires t.Node? && t.left.Node?
    ensures Linked(c, t, root, m) <==> EdgeLeft(c, t, root, m)
  {
    ApartLeft(c, t.color, t.left, t.node, t.right);
    var l := t.left;
    assert Mirrors(l, t.node, m) <==>
      (l.node in m && m[l.node] == TreeNode(t.node, Root(l.left), Root(l.right), l.color)
       && Mirrors(l.left, l.node, m) && Mirrors(l.right, l.node, m));
  }

  /** Three subtrees and a context survive when only x, y, the top of b and the node above the hole are rewritten. */
  lemma {:induction false} Reseat(c: LevelContext, x: PriceLevel, y: PriceLevel, a: LevelTree, b: LevelTree,
      d: LevelTree, hole: PriceLevel?, v: PriceLevel?, root: PriceLevel?, root': PriceLevel?,
      pa: PriceLevel?, pb: PriceLevel?, pd: PriceLevel?, q: PriceLevel?, m: Links, m': Links)
    requires Apart(c, x, y, a, b, d)
    requires Mirrors(a, pa, m) && Mirrors(b, pb, m) && Mirrors(d, pd, m) && MirrorsContext(c, hole, root, m)
    requires forall n :: n != x && n != y && n != Root(b) && n != Above(c) ==> Same(n, m, m')
    requires b.Node? ==> b.node in m' && m'[b.node] == m[b.node].(parent := q)
    requires !c.Top? ==> c.node in m' && m'[c.node] == Hung(c, m[c.node], v)
    requires root' == if c.Top? then v else root
    ensures Mirrors(a, pa, m') && Mirrors(b, q, m') && Mirrors(d, pd, m') && MirrorsContext(c, v, root', m')
  {
    assert b.Node? ==> b.node in Nodes(b);
    assert !c.Top? ==> c.node in ContextNodes(c);
    Reparent(b, pb, q, m, m');
    Relink(c, hole, v, root, root', m, m');
    Frame(a, pa, m, m');
    Frame(d, pd, m, m');
  }

  lemma {:induction false} RotatedLeft(c: LevelContext, t: LevelTree, root: PriceLevel?, root': PriceLevel?, m: Links,
      m': Links)
    requires t.Node? && t.right.Node? && Linked(c, t, root, m)
    requires var x, y, b := t.node, t.right.node, t.right.left;
      && x in m' && m'[x] == TreeNode(y, Root(t.left), Root(b), t.color)
      && y in m' && m'[y] == TreeNode(Above(c), x, Root(t.right.right), t.right.color)
      && (b.Node? ==> b.node in m && b.node in m' && m'[b.node] == m[b.node].(parent := x))
      && (!c.Top? ==> c.node in m && c.node in m' && m'[c.node] == Hung(c, m[c.node], y))
      && (forall n :: n != x && n != y && n != Root(b) && n != Above(c) ==> Same(n, m, m'))
      && root' == if c.Top? then y else root
    ensures Linked(c, RotateLeft(t), root', m')
  {
    var x, y := t.node, t.right.node;
    OpenRight(c, t, root, m);
    Reseat(c, x, y, t.left, t.right.left, t.right.right, x, y, root, root', x, y, y, x, m, m');
    OpenLeft(c, RotateLeft(t), root', m');
  }

  lemma {:induction false} RotatedRight(c: LevelContext, t: LevelTree, root: PriceLevel?, root': PriceLevel?, m: Links,
      m': Links)
    requires t.Node? && t.left.Node? && Linked(c, t, root, m)
    requires var x, y, b := t.left.node, t.node, t.left.right;
      && y in m' && m'[y] == TreeNode(x, Root(b), Root(t.right), t.color)
      && x in m' && m'[x] == TreeNode(Above(c), Root(t.left.left), y, t.left.color)
      && (b.Node? ==> b.node in m && b.node in m' && m'[b.node] == m[b.node].(parent := y))
      && (!c.Top? ==> c.node in m && c.node in m' && m'[c.node] == Hung(c, m[c.node], x))
      && (forall n :: n != x && n != y && n != Root(b) && n != Above(c) ==> Same(n, m, m'))
      && root' == if c.Top? then x else root
    ensures Linked(c, RotateRight(t), root', m')
  {
    var x, y := t.left.node, t.node;
    OpenLeft(c, t, root, m);
    Reseat(c, x, y, t.left.left, t.left.right, t.right, y, x, root, root', x, x, y, y, m, m');
    OpenRight(c, RotateRight(t), root', m');
  }

  // ---------- attaching, cutting and replacing ----------

  lemma {:induction false} Attached(c: LevelContext, n: PriceLevel, root: PriceLevel?, root': PriceLevel?, m: Links,
      m': Links)
    requires Linked(c, Leaf, root, m) && n !in ContextNodes(c)
    requires n in m' && m'[n] == TreeNode(Above(c), null, null, Red)
    requires !c.Top? ==> c.node in m' && m'[c.node] == Hung(c, m[c.node], n)
    requires forall k :: k != n && k != Above(c) ==> Same(k, m, m')
    requires root' == if c.Top? then n else root
    ensures Linked(c, Node(Red, Leaf, n, Leaf), root', m')
  {
    Relink(c, null, n, root, root', m, m');
  }

  /** One of the two children of the top of `t` is hung in its place. */
  lemma {:induction false} Spliced(c: LevelContext, t: LevelTree, rest: LevelTree, root: PriceLevel?,
      root': PriceLevel?, m: Links, m': Links)
    requires Linked(c, t, root, m) && t.Node? && (rest == t.left || rest == t.right)
    requires rest.Node? ==> rest.node in m && rest.node in m' && m'[rest.node] == m[rest.node].(parent := Above(c))
    requires !c.Top? ==> c.node in m' && m'[c.node] == Hung(c, m[c.node], Root(rest))
    requires forall k :: k != t.node && k != Root(rest) && k != Above(c) ==> Same(k, m, m')
    requires root' == if c.Top? then Root(rest) else root
    ensures Linked(c, rest, root', m')
  {
    assert Mirrors(t.left, t.node, m) && Mirrors(t.right, t.node, m);
    assert rest.Node? ==> rest.node in Nodes(rest);
    assert !c.Top? ==> c.node in ContextNodes(c);
    assert Nodes(rest) !! ContextNodes(c) && t.node !in Nodes(rest) && t.node !in ContextNodes(c);
    Reparent(rest, t.node, Above(c), m, m');
    Relink(c, t.node, Root(rest), root, root', m, m');
  }

  /** A node that is not in the tree takes over the place and colour of the top of `t`. */
  lemma {:induction false} Substituted(c: LevelContext, t: LevelTree, y: PriceLevel, root: PriceLevel?,
      root': PriceLevel?, m: Links, m': Links)
    requires Linked(c, t, root, m) && t.Node? && y !in Nodes(t) && y !in ContextNodes(c)
    requires y in m' && m'[y] == TreeNode(Above(c), Root(t.left), Root(t.right), t.color)
    requires t.left.Node? ==> t.left.node in m && t.left.node in m' && m'[t.left.node] == m[t.left.node].(parent := y)
    requires t.right.Node? ==>
      t.right.node in m && t.right.node in m' && m'[t.right.node] == m[t.right.node].(parent := y)
    requires !c.Top? ==> c.node in m' && m'[c.node] == Hung(c, m[c.node], y)
    requires forall k :: k != t.node && k != y && k != Root(t.left) && k != Root(t.right) && k != Above(c) ==>
      Same(k, m, m')
    requires root' == if c.Top? then y else root
    ensures Linked(c, t.(node := y), root', m')
  {
    assert Mirrors(t.left, t.node, m) && Mirrors(t.right, t.node, m);
    assert t.left.Node? ==> t.left.node in Nodes(t.left);
    assert t.right.Node? ==> t.right.node in Nodes(t.right);
    assert !c.Top? ==> c.node in ContextNodes(c);
    Reparent(t.left, t.node, y, m, m');
    Reparent(t.right, t.node, y, m, m');
    Relink(c, t.node, y, root, root', m, m');
  }

  /** The right child y of the top of `t`, itself without a left child, takes over its place and colour. */
  lemma {:induction false} TakenOver(c: LevelContext, t: LevelTree, root: PriceLevel?, root': PriceLevel?, m: Links,
      m': Links)
    requires Linked(c, t, root, m) && t.Node? && t.right.Node? && t.right.left.Leaf?
    requires var y := t.right.node;
      && y in m' && m'[y] == TreeNode(Above(c), Root(t.left), Root(t.right.right), t.color)
      && (t.left.Node? ==> t.left.node in m && t.left.node in m' && m'[t.left.node] == m[t.left.node].(parent := y))
      && (!c.Top? ==> c.node in m' && m'[c.node] == Hung(c, m[c.node], y))
      && (forall k :: k != t.node && k != y && k != Root(t.left) && k != Above(c) ==> Same(k, m, m'))
      && root' == if c.Top? then y else root
    ensures Linked(c, Node(t.color, t.left, t.right.node, t.right.right), root', m')
  {
    var x, y, a, d := t.node, t.right.node, t.left, t.right.right;
    OpenRight(c, t, root, m);
    assert a.Node? ==> a.node in Nodes(a);
    Reparent(a, x, y, m, m');
    Frame(d, y, m, m');
    Relink(c, x, y, root, root', m, m');
  }
}
