/** The shape of a red-black tree as a value, and a tree with one subtree cut out ("context").
    Nothing here reads the heap: the linked tree is tied to these values elsewhere. */
module TreeShape {

  datatype Color = Red | Black

  datatype Tree<N> = Leaf | Node(color: Color, left: Tree<N>, node: N, right: Tree<N>)

  /** The way from a hole up to the root. InLeft: the hole is the left child of `node`. */
  datatype Context<N> =
    | Top
    | InLeft(color: Color, node: N, sibling: Tree<N>, up: Context<N>)
    | InRight(color: Color, sibling: Tree<N>, node: N, up: Context<N>)

  // ---------- plugging ----------

  ghost function Join<N>(c: Context<N>, t: Tree<N>): (r: Tree<N>)
    requires !c.Top?
    ensures r.Node? && r.node == c.node && r.color == c.color
  {
    if c.InLeft? then Node(c.color, t, c.node, c.sibling) else Node(c.color, c.sibling, c.node, t)
  }

  ghost function WithSibling<N>(c: Context<N>, s: Tree<N>): Context<N>
    requires !c.Top?
  {
    if c.InLeft? then InLeft(c.color, c.node, s, c.up) else InRight(c.color, s, c.node, c.up)
  }

  ghost function WithColor<N>(c: Context<N>, color: Color): Context<N>
    requires !c.Top?
  {
    if c.InLeft? then InLeft(color, c.node, c.sibling, c.up) else InRight(color, c.sibling, c.node, c.up)
  }

  ghost function Plug<N>(c: Context<N>, t: Tree<N>): (r: Tree<N>)
    ensures t.Node? || !c.Top? ==> r.Node?
    decreases c
  {
    if c.Top? then t else Plug(c.up, Join(c, t))
  }

  /** The same tree seen from the sibling of the hole. */
  ghost function Across<N>(c: Context<N>, t: Tree<N>): Context<N>
    requires !c.Top?
  {
    if c.InLeft? then InRight(c.color, t, c.node, c.up) else InLeft(c.color, c.node, t, c.up)
  }

  ghost function Depth<N>(c: Context<N>): nat {
    if c.Top? then 0 else 1 + Depth(c.up)
  }

  // ---------- nodes and in-order sequence ----------

  ghost function Nodes<N>(t: Tree<N>): set<N> {
    match t
    case Leaf => {}
    case Node(_, l, n, r) => Nodes(l) + {n} + Nodes(r)
  }

  ghost function ContextNodes<N>(c: Context<N>): set<N> {
    if c.Top? then {} else {c.node} + Nodes(c.sibling) + ContextNodes(c.up)
  }

  ghost function Inorder<N>(t: Tree<N>): seq<N> {
    match t
    case Leaf => []
    case Node(_, l, n, r) => Inorder(l) + [n] + Inorder(r)
  }

  ghost function Before<N>(c: Context<N>): seq<N> {
    match c
    case Top => []
    case InLeft(_, _, _, up) => Before(up)
    case InRight(_, s, n, up) => Before(up) + (Inorder(s) + [n])
  }

  ghost function After<N>(c: Context<N>): seq<N> {
    match c
    case Top => []
    case InLeft(_, n, s, up) => [n] + Inorder(s) + After(up)
    case InRight(_, _, _, up) => After(up)
  }

  /** All nodes of the tree in order, seen from a subtree of it. */
  ghost function Whole<N>(c: Context<N>, t: Tree<N>): seq<N> {
    Before(c) + Inorder(t) + After(c)
  }

  lemma {:induction false} WholeUp<N>(c: Context<N>, t: Tree<N>)
    requires !c.Top?
    ensures Whole(c, t) == Whole(c.up, Join(c, t))
  {
    var u := c.up;
    if c.InLeft? {
      assert Before(u) + Inorder(t) + ([c.node] + Inorder(c.sibling) + After(u))
          == Before(u) + (Inorder(t) + [c.node] + Inorder(c.sibling)) + After(u);
    } else {
      assert Before(u) + (Inorder(c.sibling) + [c.node]) + Inorder(t) + After(u)
          == Before(u) + (Inorder(c.sibling) + [c.node] + Inorder(t)) + After(u);
    }
  }

  lemma {:induction false} WholePlug<N>(c: Context<N>, t: Tree<N>)
    ensures Whole(c, t) == Inorder(Plug(c, t))
    decreases c
  {
    if c.Top? {
      assert Whole(c, t) == Inorder(t);
    } else {
      WholeUp(c, t);
      WholePlug(c.up, Join(c, t));
    }
  }

  lemma {:induction false} InorderNodes<N>(t: Tree<N>)
    ensures forall n :: n in Nodes(t) <==> n in Inorder(t)
    ensures forall i :: 0 <= i < |Inorder(t)| ==> Inorder(t)[i] in Nodes(t)
  {
    if t.Node? {
      InorderNodes(t.left);
      InorderNodes(t.right);
    }
  }

  lemma {:induction false} PlugNodes<N>(c: Context<N>, t: Tree<N>)
    ensures Nodes(Plug(c, t)) == Nodes(t) + ContextNodes(c)
    decreases c
  {
    if !c.Top? {
      PlugNodes(c.up, Join(c, t));
    }
  }

  // ---------- every node once ----------

  ghost predicate Separate<N>(t: Tree<N>) {
    match t
    case Leaf => true
    case Node(_, l, n, r) =>
      && Separate(l) && Separate(r) && n !in Nodes(l) && n !in Nodes(r) && Nodes(l) !! Nodes(r)
  }

  ghost predicate SeparateContext<N>(c: Context<N>) {
    c.Top? || (
      && Separate(c.sibling) && c.node !in Nodes(c.sibling) && c.node !in ContextNodes(c.up)
      && Nodes(c.sibling) !! ContextNodes(c.up) && SeparateContext(c.up))
  }

  ghost predicate SeparateZip<N>(c: Context<N>, t: Tree<N>) {
    Separate(t) && SeparateContext(c) && Nodes(t) !! ContextNodes(c)
  }

  lemma {:induction false} InorderDistinct<N>(t: Tree<N>)
    requires Separate(t)
    ensures forall i, j :: 0 <= i < j < |Inorder(t)| ==> Inorder(t)[i] != Inorder(t)[j]
  {
    if t.Node? {
      InorderDistinct(t.left);
      InorderDistinct(t.right);
      InorderNodes(t.left);
      InorderNodes(t.right);
      var l, r := Inorder(t.left), Inorder(t.right);
      forall i, j | 0 <= i < j < |Inorder(t)| ensures Inorder(t)[i] != Inorder(t)[j] {
        if j < |l| {
        } else if i < |l| {
          assert Inorder(t)[i] == l[i] && l[i] in Nodes(t.left);
          assert j > |l| ==> Inorder(t)[j] == r[j - |l| - 1] && r[j - |l| - 1] in Nodes(t.right);
        } else {
          assert Inorder(t)[j] == r[j - |l| - 1] && r[j - |l| - 1] in Nodes(t.right);
        }
      }
    }
  }

  // ---------- finding a node ----------

  datatype Zip<N> = Zip(context: Context<N>, tree: Tree<N>)

  /** The subtree whose top is `n`, with its context. */
  ghost function Locate<N>(c: Context<N>, t: Tree<N>, n: N): (z: Zip<N>)
    requires n in Nodes(t)
    ensures z.tree.Node? && z.tree.node == n
    ensures Plug(z.context, z.tree) == Plug(c, t)
    decreases t
  {
    if n == t.node then Zip(c, t)
    else if n in Nodes(t.left) then Locate(InLeft(t.color, t.node, t.right, c), t.left, n)
    else Locate(InRight(t.color, t.left, t.node, c), t.right, n)
  }

  /** The leftmost node of a non-empty subtree. */
  ghost function Leftmost<N>(c: Context<N>, t: Tree<N>): (z: Zip<N>)
    requires t.Node?
    ensures z.tree.Node? && z.tree.left.Leaf?
    ensures Plug(z.context, z.tree) == Plug(c, t)
    ensures Before(z.context) == Before(c)
    decreases t
  {
    if t.left.Leaf? then Zip(c, t) else Leftmost(InLeft(t.color, t.node, t.right, c), t.left)
  }

  ghost function Rightmost<N>(c: Context<N>, t: Tree<N>): (z: Zip<N>)
    requires t.Node?
    ensures z.tree.Node? && z.tree.right.Leaf?
    ensures Plug(z.context, z.tree) == Plug(c, t)
    ensures After(z.context) == After(c)
    decreases t
  {
    if t.right.Leaf? then Zip(c, t) else Rightmost(InRight(t.color, t.left, t.node, c), t.right)
  }

  // ---------- rotations ----------

  ghost function RotateLeft<N>(t: Tree<N>): Tree<N>
    requires t.Node? && t.right.Node?
  {
    Node(t.right.color, Node(t.color, t.left, t.node, t.right.left), t.right.node, t.right.right)
  }

  ghost function RotateRight<N>(t: Tree<N>): Tree<N>
    requires t.Node? && t.left.Node?
  {
    Node(t.left.color, t.left.left, t.left.node, Node(t.color, t.left.right, t.node, t.right))
  }

  lemma {:induction false} Regroup<N>(a: seq<N>, x: N, b: seq<N>, y: N, d: seq<N>)
    ensures a + [x] + (b + [y] + d) == (a + [x] + b) + [y] + d
  {
  }

  lemma {:induction false} RotationInorder<N>(t: Tree<N>)
    ensures t.Node? && t.right.Node? ==> Inorder(RotateLeft(t)) == Inorder(t)
    ensures t.Node? && t.left.Node? ==> Inorder(RotateRight(t)) == Inorder(t)
  {
    if t.Node? && t.right.Node? {
      var r := t.right;
      Regroup(Inorder(t.left), t.node, Inorder(r.left), r.node, Inorder(r.right));
      assert Inorder(r) == Inorder(r.left) + [r.node] + Inorder(r.right);
    }
    if t.Node? && t.left.Node? {
      var l := t.left;
      Regroup(Inorder(l.left), l.node, Inorder(l.right), t.node, Inorder(t.right));
      assert Inorder(l) == Inorder(l.left) + [l.node] + Inorder(l.right);
    }
  }
}
