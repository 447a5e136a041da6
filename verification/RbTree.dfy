/** Rotations, and the rebalancing loops after an insertion and after an erasure, on the linked nodes. */
module RbTree {
  import opened RbShape
  import opened RbColor

  ghost function RotL(t: Tree): Tree
    requires t.Node? && t.right.Node?
  {
    Node(t.right.color, Node(t.color, t.left, t.it, t.right.left), t.right.it, t.right.right)
  }

  /** The cells that hang on the nodes a left rotation at x touches: x, its right child y, y's left
      child and x's parent are all present and different. */
  ghost predicate CanRotateLeft(m: Mem, x: RbNode) {
    && x in m && m[x].right != null && m[x].right in m && m[x].right != x
    && var y, p := m[x].right, m[x].parent; var b := m[y].left;
    && (b != null ==> b in m && b != x && b != y && b != p)
    && (p != null ==> p in m && p != x && p != y)
  }

  /** What the cells hold after the writes of __rb_rotate_left at x. */
  ghost predicate RotatedLeft(m: Mem, m': Mem, x: RbNode, top: RbNode?, top': RbNode?)
    requires CanRotateLeft(m, x)
  {
    var y, p := m[x].right, m[x].parent; var b := m[y].left;
    && m'.Keys == m.Keys
    && m'[x] == Cell(y, m[x].color, m[x].left, b)
    && m'[y] == Cell(p, m[y].color, x, m[y].right)
    && (b != null ==> m'[b] == m[b].(parent := x))
    && (if p == null then top' == y
        else top' == top && m'[p] == if m[p].left == x then m[p].(left := y) else m[p].(right := y))
    && forall z :: z in m && z != x && z != y && z != b && z != p ==> m'[z] == m[z]
  }

  /** The pieces of t around a left rotation do not overlap each other or the context. */
  lemma RotateLeftParts(k: Ctx, t: Tree)
    requires t.Node? && t.right.Node? && Distinct(t) && Nodes(t) !! CtxNodes(k)
    ensures var x, y, a, b, c := t.it, t.right.it, t.left, t.right.left, t.right.right;
      && x != y && x !in Nodes(a) && x !in Nodes(b) && x !in Nodes(c)
      && y !in Nodes(a) && y !in Nodes(b) && y !in Nodes(c)
      && Distinct(b) && (b.Node? ==> b.it in Nodes(b) && b.it !in Nodes(a) && b.it !in Nodes(c))
    ensures Nodes(RotL(t)) == Nodes(t) && Distinct(RotL(t))
    ensures Above(k) != null ==> Above(k) in CtxNodes(k) && Above(k) !in Nodes(t)
    ensures t.it in Nodes(t) && t.right.it in Nodes(t)
    ensures Nodes(t.left) <= Nodes(t) && Nodes(t.right.left) <= Nodes(t) && Nodes(t.right.right) <= Nodes(t)
  {
    assert Distinct(t.right);
  }

  lemma RotateLeftAt(m: Mem, t: Tree, p: RbNode?)
    requires t.Node? && t.right.Node? && TreeAt(m, t, t.it, p)
    ensures var x, y, a, b, c := t.it, t.right.it, t.left, t.right.left, t.right.right;
      && x in m && y in m && m[x].right == y && m[x].parent == p
      && TreeAt(m, a, m[x].left, x) && TreeAt(m, b, m[y].left, y) && TreeAt(m, c, m[y].right, y)
      && m[x].color == t.color && m[y].color == t.right.color
      && (if b.Leaf? then m[y].left == null else m[y].left == b.it && b.it in m)
  {
    assert TreeAt(m, t.right, m[t.it].right, t.it);
  }

  lemma RotateLeftLocal(m: Mem, k: Ctx, t: Tree, top: RbNode?)
    requires t.Node? && t.right.Node? && Focus(m, top, k, t, t.it)
    ensures CanRotateLeft(m, t.it)
  {
    RotateLeftAt(m, t, Above(k));
    RotateLeftParts(k, t);
  }

  /** Which link of its parent leads to a node. */
  lemma Side(m: Mem, k: Ctx, n: RbNode, top: RbNode?)
    requires CtxAt(m, k, n, top) && n !in CtxNodes(k) && !k.Top?
    ensures m[k.it].left == n <==> k.InLeft?
  {
    if k.InRight? {
      assert TreeAt(m, k.left, m[k.it].left, k.it);
    }
  }

  lemma RotateLeftTree(m: Mem, m': Mem, k: Ctx, t: Tree, top: RbNode?, top': RbNode?)
    requires t.Node? && t.right.Node? && Focus(m, top, k, t, t.it) && CanRotateLeft(m, t.it)
    requires RotatedLeft(m, m', t.it, top, top')
    ensures TreeAt(m', RotL(t), t.right.it, Above(k))
  {
    var x, y := t.it, t.right.it;
    RotateLeftParts(k, t);
    RotateLeftAt(m, t, Above(k));
    TreeNodes(m, t, x, Above(k));
    TreeFrame(m, m', t.left, m[x].left, x);
    TreeReparent(m, m', t.right.left, m[y].left, y, x);
    TreeFrame(m, m', t.right.right, m[y].right, y);
  }

  lemma RotateLeftFocus(m: Mem, m': Mem, k: Ctx, t: Tree, top: RbNode?, top': RbNode?)
    requires t.Node? && t.right.Node? && Focus(m, top, k, t, t.it) && CanRotateLeft(m, t.it)
    requires RotatedLeft(m, m', t.it, top, top')
    ensures Focus(m', top', k, RotL(t), t.right.it)
  {
    RotateLeftTree(m, m', k, t, top, top');
    RotateLeftParts(k, t);
    RotateLeftAt(m, t, Above(k));
    if !k.Top? {
      Side(m, k, t.it, top);
    }
    CtxIn(m, k, t.it, top);
    CtxRelink(m, m', k, t.it, t.right.it, top, top');
  }

  /** __rb_rotate_left */
  method RotateLeftLinks(node: RbNode, root: RbRoot)
    requires root.Synced() && CanRotateLeft(root.mem, node)
    modifies root, root.mem.Keys
    ensures root.Synced() && RotatedLeft(old(root.mem), root.mem, node, old(root.node), root.node)
  {
    var right := node.right;
    var parent := node.parent;
    node.right := right.left;
    if node.right != null {
      node.right.parent := node;
    }
    right.left := node;
    right.parent := parent;
    if parent != null {
      if node == parent.left {
        parent.left := right;
      } else {
        parent.right := right;
      }
    } else {
      root.node := right;
    }
    node.parent := right;
    root.mem := Snapshot(root.mem.Keys);
  }

  method RotateLeft(node: RbNode, root: RbRoot, ghost k: Ctx, ghost t: Tree)
    requires t.Node? && t.right.Node? && root.Synced() && Focus(root.mem, root.node, k, t, node)
    modifies root, root.mem.Keys
    ensures root.Synced() && root.mem.Keys == old(root.mem.Keys)
    ensures Focus(root.mem, root.node, k, RotL(t), t.right.it)
  {
    RotateLeftLocal(root.mem, k, t, root.node);
    RotateLeftLinks(node, root);
    RotateLeftFocus(old(root.mem), root.mem, k, t, old(root.node), root.node);
  }

  // ---------- right rotation, by symmetry ----------

  ghost function RotR(t: Tree): Tree
    requires t.Node? && t.left.Node?
  {
    Node(t.left.color, t.left.left, t.left.it, Node(t.color, t.left.right, t.it, t.right))
  }

  /** __rb_rotate_right: the mirror image of a left rotation. */
  method RotateRightLinks(node: RbNode, root: RbRoot)
    requires root.Synced() && CanRotateLeft(MirrorMem(root.mem), node)
    modifies root, root.mem.Keys
    ensures root.Synced()
    ensures RotatedLeft(MirrorMem(old(root.mem)), MirrorMem(root.mem), node, old(root.node), root.node)
  {
    var left := node.left;
    var parent := node.parent;
    node.left := left.right;
    if node.left != null {
      node.left.parent := node;
    }
    left.right := node;
    left.parent := parent;
    if parent != null {
      if node == parent.right {
        parent.right := left;
      } else {
        parent.left := left;
      }
    } else {
      root.node := left;
    }
    node.parent := left;
    root.mem := Snapshot(root.mem.Keys);
  }

  method RotateRight(node: RbNode, root: RbRoot, ghost k: Ctx, ghost t: Tree)
    requires t.Node? && t.left.Node? && root.Synced() && Focus(root.mem, root.node, k, t, node)
    modifies root, root.mem.Keys
    ensures root.Synced() && root.mem.Keys == old(root.mem.Keys)
    ensures Focus(root.mem, root.node, k, RotR(t), t.left.it)
  {
    ghost var mk, mt := MirrorCtx(k), MirrorTree(t);
    MirrorFocus(root.mem, root.node, k, t, node);
    RotateLeftLocal(MirrorMem(root.mem), mk, mt, root.node);
    RotateRightLinks(node, root);
    RotateLeftFocus(MirrorMem(old(root.mem)), MirrorMem(root.mem), mk, mt, old(root.node), root.node);
    MirrorFocus(root.mem, root.node, k, RotR(t), t.left.it);
  }

  // ---------- insertion ----------

  /** The structure under root is t inside k, entered at n. */
  ghost predicate At(root: RbRoot, k: Ctx, t: Tree, n: RbNode?)
    reads root, root.mem.Keys
  {
    root.Synced() && Focus(root.mem, root.node, k, t, n)
  }

  lemma RecolorFocus(m: Mem, m': Mem, k: Ctx, t: Tree, top: RbNode?, c: Color)
    requires t.Node? && Focus(m, top, k, t, t.it)
    requires m' == m[t.it := m[t.it].(color := c)]
    ensures Focus(m', top, k, t.(color := c), t.it)
  {
    TreeNodes(m, t, t.it, Above(k));
    CtxIn(m, k, t.it, top);
    TreeFrame(m, m', t.left, m[t.it].left, t.it);
    TreeFrame(m, m', t.right, m[t.it].right, t.it);
    CtxFrame(m, m', k, t.it, top);
  }

  /** rb_set_red, rb_set_black, rb_set_color */
  method SetColor(n: RbNode, c: Color, root: RbRoot, ghost k: Ctx, ghost t: Tree)
    requires t.Node? && At(root, k, t, n)
    modifies root`mem, n`color
    ensures At(root, k, t.(color := c), n) && root.mem.Keys == old(root.mem.Keys)
  {
    n.color := c;
    root.mem := root.mem[n := root.mem[n].(color := c)];
    RecolorFocus(old(root.mem), root.mem, k, t, root.node, c);
  }

  /** The red-uncle branch of rb_insert_color. */
  method PushBlack(uncle: RbNode, parent: RbNode, gparent: RbNode, root: RbRoot, ghost k: Ctx, ghost t: Tree,
                   ghost n: RbNode)
    requires RedParent(k) && Uncle(k).Node? && At(root, k, t, n)
    requires uncle == Uncle(k).it && parent == k.it && gparent == k.up.it
    modifies root`mem, root.mem.Keys
    ensures At(root, k.up.up, Pushed(k, t), gparent) && root.mem.Keys == old(root.mem.Keys)
  {
    ghost var p, u, g := Wrap(k, t), Uncle(k), k.up;
    Up(root.mem, root.node, k, t, n);
    Up(root.mem, root.node, g, p, parent);
    Down(root.mem, root.node, g.up, Wrap(g, p), gparent);
    ghost var ku := if g.InLeft? then InRight(g.color, p, gparent, g.up) else InLeft(g.color, gparent, p, g.up);
    SetColor(uncle, Black, root, ku, u);
    u := u.(color := Black);
    Up(root.mem, root.node, ku, u, uncle);
    Down(root.mem, root.node, g.up, Wrap(ku, u), gparent);
    ghost var kp := if g.InLeft? then InLeft(g.color, gparent, u, g.up) else InRight(g.color, u, gparent, g.up);
    SetColor(parent, Black, root, kp, p);
    p := p.(color := Black);
    Up(root.mem, root.node, kp, p, parent);
    SetColor(gparent, Red, root, g.up, Wrap(kp, p));
  }

  /** The parent of a red node with a red parent, and what hangs on the grandparent. */
  lemma GrandparentAt(m: Mem, top: RbNode?, k: Ctx, t: Tree, n: RbNode, h: int)
    requires Focus(m, top, k, t, n) && Inserting(k, t, h) && CtxRed(k)
    ensures RedParent(k) && k.it in m && k.up.it in m && m[k.it].parent == k.up.it
    ensures m[k.up.it].left == k.it <==> k.up.InLeft?
    ensures m[k.it].left == n <==> k.InLeft?
    ensures m[k.it].right == n <==> k.InRight?
    ensures var u := if k.up.InLeft? then m[k.up.it].right else m[k.up.it].left;
      if Uncle(k).Leaf? then u == null else u == Uncle(k).it && u in m && m[u].color == Uncle(k).color
  {
    GrandparentIsBlack(k, t, h);
    Side(m, k, n, top);
    Up(m, top, k, t, n);
    Side(m, k.up, k.it, top);
    if k.InLeft? {
      assert TreeAt(m, k.right, m[k.it].right, k.it);
    }
  }

  /** Inner grandchild with the parent on the left: rotate at the parent and go on from there. */
  method RotateInnerLeft(node: RbNode, parent: RbNode, root: RbRoot, ghost k: Ctx, ghost t: Tree, ghost h: int)
    returns (ghost k': Ctx, ghost t': Tree)
    requires At(root, k, t, node) && Inserting(k, t, h) && RedParent(k)
    requires k.InRight? && k.up.InLeft? && parent == k.it
    modifies root, root.mem.Keys
    ensures At(root, k', t', parent) && root.mem.Keys == old(root.mem.Keys)
    ensures Inserting(k', t', h) && k'.InLeft? && k'.up == k.up && k'.it == node && RedParent(k')
    ensures InOrder(Plug(k', t')) == InOrder(Plug(k, t))
  {
    ghost var p := Wrap(k, t);
    InnerLeftOk(k, t, h);
    Up(root.mem, root.node, k, t, node);
    RotateLeft(parent, root, k.up, p);
    Down(root.mem, root.node, k.up, RotL(p), node);
    k', t' := InLeft(Red, node, t.right, k.up), Node(Red, k.left, parent, t.left);
    assert Wrap(k', t') == RotL(p);
    SameOrder(k.up, p, RotL(p));
  }

  /** Outer grandchild on the left. */
  method RotateOuterLeft(parent: RbNode, gparent: RbNode, root: RbRoot, ghost n: RbNode, ghost k: Ctx, ghost t: Tree,
                         ghost h: int)
    requires At(root, k, t, n) && Inserting(k, t, h) && RedParent(k) && !IsRed(Uncle(k))
    requires k.InLeft? && k.up.InLeft? && parent == k.it && gparent == k.up.it
    modifies root, root.mem.Keys
    ensures At(root, OuterLeft(k), t, n) && root.mem.Keys == old(root.mem.Keys)
    ensures Inserting(OuterLeft(k), t, h)
    ensures InOrder(Plug(OuterLeft(k), t)) == InOrder(Plug(k, t))
  {
    OuterLeftOk(k, t, h);
    ghost var p := Wrap(k, t);
    SameOrder(k.up.up, Wrap(k.up, p), Wrap(OuterLeft(k), t));
    Up(root.mem, root.node, k, t, n);
    SetColor(parent, Black, root, k.up, p);
    p := p.(color := Black);
    Up(root.mem, root.node, k.up, p, parent);
    ghost var g := Wrap(k.up, p);
    SetColor(gparent, Red, root, k.up.up, g);
    g := g.(color := Red);
    RotateRight(gparent, root, k.up.up, g);
    Down(root.mem, root.node, k.up.up, RotR(g), parent);
  }

  /** Inner grandchild with the parent on the right. */
  method RotateInnerRight(node: RbNode, parent: RbNode, root: RbRoot, ghost k: Ctx, ghost t: Tree, ghost h: int)
    returns (ghost k': Ctx, ghost t': Tree)
    requires At(root, k, t, node) && Inserting(k, t, h) && RedParent(k)
    requires k.InLeft? && k.up.InRight? && parent == k.it
    modifies root, root.mem.Keys
    ensures At(root, k', t', parent) && root.mem.Keys == old(root.mem.Keys)
    ensures Inserting(k', t', h) && k'.InRight? && k'.up == k.up && k'.it == node && RedParent(k')
    ensures InOrder(Plug(k', t')) == InOrder(Plug(k, t))
  {
    ghost var p := Wrap(k, t);
    InnerRightOk(k, t, h);
    Up(root.mem, root.node, k, t, node);
    RotateRight(parent, root, k.up, p);
    Down(root.mem, root.node, k.up, RotR(p), node);
    k', t' := InRight(Red, t.left, node, k.up), Node(Red, t.right, parent, k.right);
    assert Wrap(k', t') == RotR(p);
    SameOrder(k.up, p, RotR(p));
  }

  /** Outer grandchild on the right. */
  method RotateOuterRight(parent: RbNode, gparent: RbNode, root: RbRoot, ghost n: RbNode, ghost k: Ctx,
                          ghost t: Tree, ghost h: int)
    requires At(root, k, t, n) && Inserting(k, t, h) && RedParent(k) && !IsRed(Uncle(k))
    requires k.InRight? && k.up.InRight? && parent == k.it && gparent == k.up.it
    modifies root, root.mem.Keys
    ensures At(root, OuterRight(k), t, n) && root.mem.Keys == old(root.mem.Keys)
    ensures Inserting(OuterRight(k), t, h)
    ensures InOrder(Plug(OuterRight(k), t)) == InOrder(Plug(k, t))
  {
    OuterRightOk(k, t, h);
    ghost var p := Wrap(k, t);
    SameOrder(k.up.up, Wrap(k.up, p), Wrap(OuterRight(k), t));
    Up(root.mem, root.node, k, t, n);
    SetColor(parent, Black, root, k.up, p);
    p := p.(color := Black);
    Up(root.mem, root.node, k.up, p, parent);
    ghost var g := Wrap(k.up, p);
    SetColor(gparent, Red, root, k.up.up, g);
    g := g.(color := Red);
    RotateLeft(gparent, root, k.up.up, g);
    Down(root.mem, root.node, k.up.up, RotL(g), parent);
  }

  ghost function Depth(k: Ctx): nat {
    if k.Top? then 0 else 1 + Depth(k.up)
  }

  /** One turn of the loop of rb_insert_color, parent on the left. */
  method InsertStepLeft(node: RbNode, parent: RbNode, gparent: RbNode, root: RbRoot, ghost k: Ctx, ghost t: Tree,
                        ghost h: int)
    returns (node': RbNode, ghost k': Ctx, ghost t': Tree, ghost h': int)
    requires At(root, k, t, node) && Inserting(k, t, h) && RedParent(k)
    requires k.up.InLeft? && parent == k.it && gparent == k.up.it
    modifies root, root.mem.Keys
    ensures At(root, k', t', node') && root.mem.Keys == old(root.mem.Keys)
    ensures Inserting(k', t', h') && Depth(k') < Depth(k)
    ensures InOrder(Plug(k', t')) == InOrder(Plug(k, t))
  {
    GrandparentAt(root.mem, root.node, k, t, node, h);
    assert Depth(k) == 2 + Depth(k.up.up);
    var uncle := gparent.right;
    if uncle != null && uncle.color.Red? {
      PushBlack(uncle, parent, gparent, root, k, t, node);
      PushedOk(k, t, h);
      SameOrder(k.up.up, Pushed(k, t), Wrap(k.up, Wrap(k, t)));
      node', k', t', h' := gparent, k.up.up, Pushed(k, t), h + 1;
    } else if parent.right == node {
      k', t' := RotateInnerLeft(node, parent, root, k, t, h);
      RotateOuterLeft(node, gparent, root, parent, k', t', h);
      node', k', h' := parent, OuterLeft(k'), h;
    } else {
      RotateOuterLeft(parent, gparent, root, node, k, t, h);
      node', k', t', h' := node, OuterLeft(k), t, h;
    }
  }

  /** One turn of the loop of rb_insert_color, parent on the right. */
  method InsertStepRight(node: RbNode, parent: RbNode, gparent: RbNode, root: RbRoot, ghost k: Ctx, ghost t: Tree,
                         ghost h: int)
    returns (node': RbNode, ghost k': Ctx, ghost t': Tree, ghost h': int)
    requires At(root, k, t, node) && Inserting(k, t, h) && RedParent(k)
    requires k.up.InRight? && parent == k.it && gparent == k.up.it
    modifies root, root.mem.Keys
    ensures At(root, k', t', node') && root.mem.Keys == old(root.mem.Keys)
    ensures Inserting(k', t', h') && Depth(k') < Depth(k)
    ensures InOrder(Plug(k', t')) == InOrder(Plug(k, t))
  {
    GrandparentAt(root.mem, root.node, k, t, node, h);
    assert Depth(k) == 2 + Depth(k.up.up);
    var uncle := gparent.left;
    if uncle != null && uncle.color.Red? {
      PushBlack(uncle, parent, gparent, root, k, t, node);
      PushedOk(k, t, h);
      SameOrder(k.up.up, Pushed(k, t), Wrap(k.up, Wrap(k, t)));
      node', k', t', h' := gparent, k.up.up, Pushed(k, t), h + 1;
    } else if parent.left == node {
      k', t' := RotateInnerRight(node, parent, root, k, t, h);
      RotateOuterRight(node, gparent, root, parent, k', t', h);
      node', k', h' := parent, OuterRight(k'), h;
    } else {
      RotateOuterRight(parent, gparent, root, node, k, t, h);
      node', k', t', h' := node, OuterRight(k), t, h;
    }
  }

  /** rb_insert_color, on a tree that is red-black except that the red node may hang below a red parent. */
  method InsertColor(n: RbNode, root: RbRoot, ghost k0: Ctx, ghost t0: Tree, ghost h0: int) returns (ghost t': Tree)
    requires At(root, k0, t0, n) && Inserting(k0, t0, h0)
    modifies root, root.mem.Keys
    ensures At(root, Top, t', root.node) && root.mem.Keys == old(root.mem.Keys)
    ensures RedBlack(t') && InOrder(t') == InOrder(Plug(k0, t0))
    ensures !CtxRed(k0) ==> t' == Blackened(Plug(k0, t0))
  {
    var node := n;
    var parent := node.parent;
    ghost var k, t, h := k0, t0, h0;
    while parent != null && parent.color.Red?
      invariant At(root, k, t, node) && root.mem.Keys == old(root.mem.Keys)
      invariant Inserting(k, t, h) && parent == node.parent == Above(k)
      invariant InOrder(Plug(k, t)) == InOrder(Plug(k0, t0))
      invariant CtxRed(k0) || (k == k0 && t == t0)
      decreases Depth(k)
    {
      GrandparentAt(root.mem, root.node, k, t, node, h);
      var gparent := parent.parent;
      if parent == gparent.left {
        node, k, t, h := InsertStepLeft(node, parent, gparent, root, k, t, h);
      } else {
        node, k, t, h := InsertStepRight(node, parent, gparent, root, k, t, h);
      }
      parent := node.parent;
    }
    ToTop(root.mem, root.node, k, t, node);
    t' := Plug(k, t);
    BlackRoot(k, t, h);
    SetColor(root.node, Black, root, Top, t');
    t' := t'.(color := Black);
  }

  /** The last statement of rb_insert_color blackens the root and so ends with a red-black tree. */
  lemma {:induction false} BlackRoot(k: Ctx, t: Tree, h: int)
    requires Inserting(k, t, h) && !CtxRed(k)
    ensures Plug(k, t).Node? && RedBlack(Plug(k, t).(color := Black))
    ensures InOrder(Plug(k, t).(color := Black)) == InOrder(Plug(k, t))
  {
    if k.Top? {
      BalHeight(t, h);
      BalHeight(t.(color := Black), h + 1);
    } else {
      PlugRedBlack(k, t, h);
    }
    if Plug(k, t).Leaf? {
      NodesPlug(k, t);
    }
  }

  // ---------- deletion ----------

  /** The parent and the sibling of a position that is one black node short. */
  lemma SiblingAt(m: Mem, top: RbNode?, k: Ctx, t: Tree, n: RbNode?, h: int)
    requires Focus(m, top, k, t, n) && Deleting(k, t, h) && !k.Top?
    ensures k.it in m && Sibling(k).Node? && Sibling(k).it in m
    ensures m[k.it].left == n <==> k.InLeft?
    ensures k.InLeft? ==> m[k.it].right == Sibling(k).it
    ensures k.InRight? ==> m[k.it].left == Sibling(k).it
    ensures n != top
  {
    SiblingExists(k, t, h);
    ToTop(m, top, k, t, n);
  }

  /** The children of a node, as the code tests them. */
  lemma ChildrenAt(m: Mem, t: Tree, n: RbNode, p: RbNode?)
    requires TreeAt(m, t, n, p)
    ensures t.Node? && n in m && m[n].color == t.color
    ensures if t.left.Leaf? then m[n].left == null
            else m[n].left == t.left.it && t.left.it in m && m[t.left.it].color == t.left.color
    ensures if t.right.Leaf? then m[n].right == null
            else m[n].right == t.right.it && t.right.it in m && m[t.right.it].color == t.right.color
  {
  }

  /** Red sibling on the right: the two paint statements and the rotation of __rb_erase_color. */
  method EraseRedSiblingLeft(parent: RbNode, other: RbNode, root: RbRoot, ghost n: RbNode?, ghost k: Ctx, ghost t: Tree)
    requires At(root, k, t, n) && k.InLeft? && k.right.Node? && parent == k.it && other == k.right.it
    modifies root, root.mem.Keys
    ensures At(root, RedSiblingLeft(k), t, n) && root.mem.Keys == old(root.mem.Keys)
  {
    ghost var p := Wrap(k, t);
    Up(root.mem, root.node, k, t, n);
    Down(root.mem, root.node, k.up, p, parent);
    ghost var ko := InRight(k.color, t, parent, k.up);
    SetColor(other, Black, root, ko, k.right);
    ghost var s := k.right.(color := Black);
    Up(root.mem, root.node, ko, s, other);
    p := Node(k.color, t, parent, s);
    SetColor(parent, Red, root, k.up, p);
    p := p.(color := Red);
    RotateLeft(parent, root, k.up, p);
    Down(root.mem, root.node, k.up, RotL(p), other);
    Down(root.mem, root.node, InLeft(Black, other, s.right, k.up), Node(Red, t, parent, s.left), parent);
  }

  /** Only the inner nephew is red: paint and rotate at the sibling. */
  method EraseInnerLeft(other: RbNode, inner: RbNode, root: RbRoot, ghost n: RbNode?, ghost k: Ctx, ghost t: Tree)
    requires At(root, k, t, n) && k.InLeft? && k.right.Node? && k.right.left.Node?
    requires other == k.right.it && inner == k.right.left.it
    modifies root, root.mem.Keys
    ensures At(root, InnerNephewLeft(k), t, n) && root.mem.Keys == old(root.mem.Keys)
  {
    ghost var s := k.right;
    ghost var ko := InRight(k.color, t, k.it, k.up);
    Up(root.mem, root.node, k, t, n);
    Down(root.mem, root.node, k.up, Wrap(k, t), k.it);
    Down(root.mem, root.node, ko, s, other);
    ghost var ki := InLeft(s.color, other, s.right, ko);
    SetColor(inner, Black, root, ki, s.left);
    ghost var i := s.left.(color := Black);
    Up(root.mem, root.node, ki, i, inner);
    s := Wrap(ki, i);
    SetColor(other, Red, root, ko, s);
    s := s.(color := Red);
    RotateRight(other, root, ko, s);
    Up(root.mem, root.node, ko, RotR(s), inner);
    Down(root.mem, root.node, k.up, Wrap(ko, RotR(s)), k.it);
  }

  /** The outer nephew is red: paint and rotate at the parent, and the deficit is gone. */
  method EraseOuterLeft(parent: RbNode, other: RbNode, root: RbRoot, ghost n: RbNode?, ghost k: Ctx, ghost t: Tree)
    requires At(root, k, t, n) && k.InLeft? && k.right.Node? && k.right.right.Node?
    requires parent == k.it && other == k.right.it
    modifies root, root.mem.Keys
    ensures At(root, k.up, OuterNephewLeft(k, t), other) && root.mem.Keys == old(root.mem.Keys)
  {
    ghost var s := k.right;
    ghost var ko := InRight(k.color, t, parent, k.up);
    Up(root.mem, root.node, k, t, n);
    Down(root.mem, root.node, k.up, Wrap(k, t), parent);
    SetColor(other, parent.color, root, ko, s);
    s := s.(color := k.color);
    Up(root.mem, root.node, ko, s, other);
    ghost var p := Wrap(ko, s);
    SetColor(parent, Black, root, k.up, p);
    p := p.(color := Black);
    Down(root.mem, root.node, k.up, p, parent);
    ko := InRight(Black, t, parent, k.up);
    Down(root.mem, root.node, ko, s, other);
    ghost var kf := InRight(k.color, s.left, other, ko);
    SetColor(other.right, Black, root, kf, s.right);
    ghost var f := s.right.(color := Black);
    Up(root.mem, root.node, kf, f, f.it);
    Up(root.mem, root.node, ko, Wrap(kf, f), other);
    p := Wrap(ko, Wrap(kf, f));
    RotateLeft(parent, root, k.up, p);
  }

  /** Red sibling on the left: the two paint statements and the rotation of __rb_erase_color. */
  method EraseRedSiblingRight(parent: RbNode, other: RbNode, root: RbRoot, ghost n: RbNode?, ghost k: Ctx,
                              ghost t: Tree)
    requires At(root, k, t, n) && k.InRight? && k.left.Node? && parent == k.it && other == k.left.it
    modifies root, root.mem.Keys
    ensures At(root, RedSiblingRight(k), t, n) && root.mem.Keys == old(root.mem.Keys)
  {
    ghost var p := Wrap(k, t);
    Up(root.mem, root.node, k, t, n);
    Down(root.mem, root.node, k.up, p, parent);
    ghost var ko := InLeft(k.color, parent, t, k.up);
    SetColor(other, Black, root, ko, k.left);
    ghost var s := k.left.(color := Black);
    Up(root.mem, root.node, ko, s, other);
    p := Node(k.color, s, parent, t);
    SetColor(parent, Red, root, k.up, p);
    p := p.(color := Red);
    RotateRight(parent, root, k.up, p);
    Down(root.mem, root.node, k.up, RotR(p), other);
    Down(root.mem, root.node, InRight(Black, s.left, other, k.up), Node(Red, s.right, parent, t), parent);
  }

  /** Only the inner nephew is red: paint and rotate at the sibling. */
  method EraseInnerRight(other: RbNode, inner: RbNode, root: RbRoot, ghost n: RbNode?, ghost k: Ctx, ghost t: Tree)
    requires At(root, k, t, n) && k.InRight? && k.left.Node? && k.left.right.Node?
    requires other == k.left.it && inner == k.left.right.it
    modifies root, root.mem.Keys
    ensures At(root, InnerNephewRight(k), t, n) && root.mem.Keys == old(root.mem.Keys)
  {
    ghost var s := k.left;
    ghost var ko := InLeft(k.color, k.it, t, k.up);
    Up(root.mem, root.node, k, t, n);
    Down(root.mem, root.node, k.up, Wrap(k, t), k.it);
    Down(root.mem, root.node, ko, s, other);
    ghost var ki := InRight(s.color, s.left, other, ko);
    SetColor(inner, Black, root, ki, s.right);
    ghost var i := s.right.(color := Black);
    Up(root.mem, root.node, ki, i, inner);
    s := Wrap(ki, i);
    SetColor(other, Red, root, ko, s);
    s := s.(color := Red);
    RotateLeft(other, root, ko, s);
    Up(root.mem, root.node, ko, RotL(s), inner);
    Down(root.mem, root.node, k.up, Wrap(ko, RotL(s)), k.it);
  }

  /** The outer nephew is red: paint and rotate at the parent, and the deficit is gone. */
  method EraseOuterRight(parent: RbNode, other: RbNode, root: RbRoot, ghost n: RbNode?, ghost k: Ctx, ghost t: Tree)
    requires At(root, k, t, n) && k.InRight? && k.left.Node? && k.left.left.Node?
    requires parent == k.it && other == k.left.it
    modifies root, root.mem.Keys
    ensures At(root, k.up, OuterNephewRight(k, t), other) && root.mem.Keys == old(root.mem.Keys)
  {
    ghost var s := k.left;
    ghost var ko := InLeft(k.color, parent, t, k.up);
    Up(root.mem, root.node, k, t, n);
    Down(root.mem, root.node, k.up, Wrap(k, t), parent);
    SetColor(other, parent.color, root, ko, s);
    s := s.(color := k.color);
    Up(root.mem, root.node, ko, s, other);
    ghost var p := Wrap(ko, s);
    SetColor(parent, Black, root, k.up, p);
    p := p.(color := Black);
    Down(root.mem, root.node, k.up, p, parent);
    ko := InLeft(Black, parent, t, k.up);
    Down(root.mem, root.node, ko, s, other);
    ghost var kf := InLeft(k.color, other, s.right, ko);
    SetColor(other.left, Black, root, kf, s.left);
    ghost var f := s.left.(color := Black);
    Up(root.mem, root.node, kf, f, f.it);
    Up(root.mem, root.node, ko, Wrap(kf, f), other);
    p := Wrap(ko, Wrap(kf, f));
    RotateRight(parent, root, k.up, p);
  }

  /** Turns of the fix-up loop left: a red part ends it, otherwise the position moves towards the root. */
  ghost function Turns(k: Ctx, t: Tree): nat {
    if IsRed(t) then 0 else Depth(k)
  }

  /** Black sibling on the right without red children. */
  method ErasePaintLeft(parent: RbNode, other: RbNode, root: RbRoot, ghost n: RbNode?, ghost k: Ctx, ghost t: Tree,
                        ghost h: int)
    returns (ghost t': Tree)
    requires At(root, k, t, n) && Deleting(k, t, h) && !IsRed(t)
    requires k.InLeft? && k.right.Node? && k.right.color.Black? && parent == k.it && other == k.right.it
    requires !IsRed(k.right.left) && !IsRed(k.right.right)
    modifies root, root.mem.Keys
    ensures At(root, k.up, t', parent) && root.mem.Keys == old(root.mem.Keys)
    ensures Deleting(k.up, t', h + Weight(k.color)) && t'.Node? && t'.color == k.color
    ensures InOrder(Plug(k.up, t')) == InOrder(Plug(k, t))
  {
    ghost var ko := InRight(k.color, t, parent, k.up);
    Up(root.mem, root.node, k, t, n);
    Down(root.mem, root.node, k.up, Wrap(k, t), parent);
    BlackSiblingLeftOk(k, t, h);
    SetColor(other, Red, root, ko, k.right);
    ghost var s := k.right.(color := Red);
    Up(root.mem, root.node, ko, s, other);
    t' := Wrap(ko, s);
    SameOrder(k.up, t', Wrap(k, t));
  }

  /** Black sibling on the right with a red child: after this the red child is the outer one. */
  method EraseTurnOutLeft(parent: RbNode, other: RbNode, root: RbRoot, ghost n: RbNode?, ghost k: Ctx, ghost t: Tree,
                          ghost h: int)
    returns (ghost k': Ctx)
    requires At(root, k, t, n) && Deleting(k, t, h) && !IsRed(t)
    requires k.InLeft? && k.right.Node? && k.right.color.Black? && parent == k.it && other == k.right.it
    requires IsRed(k.right.left) || IsRed(k.right.right)
    modifies root, root.mem.Keys
    ensures At(root, k', t, n) && root.mem.Keys == old(root.mem.Keys)
    ensures Deleting(k', t, h) && k'.InLeft? && k'.it == k.it && k'.color == k.color && k'.up == k.up
    ensures k'.right.Node? && k'.right.color.Black? && IsRed(k'.right.right) && InOrder(k'.right) == InOrder(k.right)
  {
    ChildrenAt(root.mem, k.right, other, parent);
    k' := k;
    if other.right == null || other.right.color.Black? {
      InnerNephewLeftOk(k, t, h);
      InnerNephewLeftOrder(k);
      EraseInnerLeft(other, other.left, root, n, k, t);
      k' := InnerNephewLeft(k);
    }
  }

  /** Black sibling on the right with a red child: the fix-up ends here. */
  method EraseRotateLeft(parent: RbNode, sibling: RbNode, root: RbRoot, ghost n: RbNode?, ghost k: Ctx,
                         ghost t: Tree, ghost h: int)
    returns (ghost t': Tree)
    requires At(root, k, t, n) && Deleting(k, t, h) && !IsRed(t)
    requires k.InLeft? && k.right.Node? && k.right.color.Black? && parent == k.it && sibling == k.right.it
    requires IsRed(k.right.left) || IsRed(k.right.right)
    modifies root, root.mem.Keys
    ensures At(root, Top, t', root.node) && root.mem.Keys == old(root.mem.Keys)
    ensures RedBlack(t') && InOrder(t') == InOrder(Plug(k, t))
  {
    ghost var kd := EraseTurnOutLeft(parent, sibling, root, n, k, t, h);
    var other := parent.right;
    OuterNephewLeftDone(k, kd, t, h);
    EraseOuterLeft(parent, other, root, n, kd, t);
    t' := Plug(k.up, OuterNephewLeft(kd, t));
    ToTop(root.mem, root.node, k.up, OuterNephewLeft(kd, t), other);
  }

  /** The first part of a turn, position on the left: afterwards the sibling is black. */
  method BlackenSiblingLeft(node: RbNode?, parent: RbNode, root: RbRoot, ghost k0: Ctx, ghost t: Tree, ghost h: int)
    returns (other: RbNode, ghost k: Ctx)
    requires At(root, k0, t, node) && Deleting(k0, t, h) && !IsRed(t)
    requires k0.InLeft? && parent == k0.it
    modifies root, root.mem.Keys
    ensures At(root, k, t, node) && Deleting(k, t, h) && root.mem.Keys == old(root.mem.Keys)
    ensures InOrder(Plug(k, t)) == InOrder(Plug(k0, t))
    ensures k.InLeft? && k.it == parent && k.right.Node? && k.right.color.Black?
    ensures other == k.right.it && other in root.mem
    ensures k == k0 || (k.color.Red? && Depth(k) == Depth(k0) + 1)
  {
    k := k0;
    SiblingAt(root.mem, root.node, k, t, node, h);
    SiblingExists(k, t, h);
    other := parent.right;
    if other.color.Red? {
      RedSiblingLeftOk(k, t, h);
      EraseRedSiblingLeft(parent, other, root, node, k, t);
      k := RedSiblingLeft(k);
      SameOrder(k.up.up, Wrap(k.up, Wrap(k, t)), Wrap(k0, t));
      SiblingAt(root.mem, root.node, k, t, node, h);
      SiblingExists(k, t, h);
      other := parent.right;
    }
  }

  /** One turn of the loop of __rb_erase_color, position on the left. */
  method EraseStepLeft(node: RbNode?, parent: RbNode, root: RbRoot, ghost k0: Ctx, ghost t: Tree, ghost h: int)
    returns (done: bool, node': RbNode?, parent': RbNode?, ghost k': Ctx, ghost t': Tree, ghost h': int)
    requires At(root, k0, t, node) && Deleting(k0, t, h) && !IsRed(t)
    requires k0.InLeft? && parent == k0.it
    modifies root, root.mem.Keys
    ensures At(root, k', t', node') && parent' == Above(k') && root.mem.Keys == old(root.mem.Keys)
    ensures InOrder(Plug(k', t')) == InOrder(Plug(k0, t))
    ensures if done then k'.Top? && RedBlack(t') else Deleting(k', t', h') && Turns(k', t') < Turns(k0, t)
  {
    hide Deleting, InOrder;
    var other;
    ghost var k;
    other, k := BlackenSiblingLeft(node, parent, root, k0, t, h);
    ChildrenAt(root.mem, k.right, other, parent);
    if (other.left == null || other.left.color.Black?) && (other.right == null || other.right.color.Black?) {
      t' := ErasePaintLeft(parent, other, root, node, k, t, h);
      done, node', parent', k', h' := false, parent, parent.parent, k.up, h + Weight(k.color);
    } else {
      t' := EraseRotateLeft(parent, other, root, node, k, t, h);
      done, node', parent', k', h' := true, root.node, null, Top, 0;
    }
  }

  /** Black sibling on the left without red children. */
  method ErasePaintRight(parent: RbNode, other: RbNode, root: RbRoot, ghost n: RbNode?, ghost k: Ctx, ghost t: Tree,
                         ghost h: int)
    returns (ghost t': Tree)
    requires At(root, k, t, n) && Deleting(k, t, h) && !IsRed(t)
    requires k.InRight? && k.left.Node? && k.left.color.Black? && parent == k.it && other == k.left.it
    requires !IsRed(k.left.left) && !IsRed(k.left.right)
    modifies root, root.mem.Keys
    ensures At(root, k.up, t', parent) && root.mem.Keys == old(root.mem.Keys)
    ensures Deleting(k.up, t', h + Weight(k.color)) && t'.Node? && t'.color == k.color
    ensures InOrder(Plug(k.up, t')) == InOrder(Plug(k, t))
  {
    ghost var ko := InLeft(k.color, parent, t, k.up);
    Up(root.mem, root.node, k, t, n);
    Down(root.mem, root.node, k.up, Wrap(k, t), parent);
    BlackSiblingRightOk(k, t, h);
    SetColor(other, Red, root, ko, k.left);
    ghost var s := k.left.(color := Red);
    Up(root.mem, root.node, ko, s, other);
    t' := Wrap(ko, s);
    SameOrder(k.up, t', Wrap(k, t));
  }

  /** Black sibling on the left with a red child: after this the red child is the outer one. */
  method EraseTurnOutRight(parent: RbNode, other: RbNode, root: RbRoot, ghost n: RbNode?, ghost k: Ctx,
                           ghost t: Tree, ghost h: int)
    returns (ghost k': Ctx)
    requires At(root, k, t, n) && Deleting(k, t, h) && !IsRed(t)
    requires k.InRight? && k.left.Node? && k.left.color.Black? && parent == k.it && other == k.left.it
    requires IsRed(k.left.left) || IsRed(k.left.right)
    modifies root, root.mem.Keys
    ensures At(root, k', t, n) && root.mem.Keys == old(root.mem.Keys)
    ensures Deleting(k', t, h) && k'.InRight? && k'.it == k.it && k'.color == k.color && k'.up == k.up
    ensures k'.left.Node? && k'.left.color.Black? && IsRed(k'.left.left) && InOrder(k'.left) == InOrder(k.left)
  {
    ChildrenAt(root.mem, k.left, other, parent);
    k' := k;
    if other.left == null || other.left.color.Black? {
      InnerNephewRightOk(k, t, h);
      InnerNephewRightOrder(k);
      EraseInnerRight(other, other.right, root, n, k, t);
      k' := InnerNephewRight(k);
    }
  }

  /** Black sibling on the left with a red child: the fix-up ends here. */
  method EraseRotateRight(parent: RbNode, sibling: RbNode, root: RbRoot, ghost n: RbNode?, ghost k: Ctx,
                          ghost t: Tree, ghost h: int)
    returns (ghost t': Tree)
    requires At(root, k, t, n) && Deleting(k, t, h) && !IsRed(t)
    requires k.InRight? && k.left.Node? && k.left.color.Black? && parent == k.it && sibling == k.left.it
    requires IsRed(k.left.left) || IsRed(k.left.right)
    modifies root, root.mem.Keys
    ensures At(root, Top, t', root.node) && root.mem.Keys == old(root.mem.Keys)
    ensures RedBlack(t') && InOrder(t') == InOrder(Plug(k, t))
  {
    ghost var kd := EraseTurnOutRight(parent, sibling, root, n, k, t, h);
    var other := parent.left;
    OuterNephewRightDone(k, kd, t, h);
    EraseOuterRight(parent, other, root, n, kd, t);
    t' := Plug(k.up, OuterNephewRight(kd, t));
    ToTop(root.mem, root.node, k.up, OuterNephewRight(kd, t), other);
  }

  /** The first part of a turn, position on the right: afterwards the sibling is black. */
  method BlackenSiblingRight(node: RbNode?, parent: RbNode, root: RbRoot, ghost k0: Ctx, ghost t: Tree, ghost h: int)
    returns (other: RbNode, ghost k: Ctx)
    requires At(root, k0, t, node) && Deleting(k0, t, h) && !IsRed(t)
    requires k0.InRight? && parent == k0.it
    modifies root, root.mem.Keys
    ensures At(root, k, t, node) && Deleting(k, t, h) && root.mem.Keys == old(root.mem.Keys)
    ensures InOrder(Plug(k, t)) == InOrder(Plug(k0, t))
    ensures k.InRight? && k.it == parent && k.left.Node? && k.left.color.Black?
    ensures other == k.left.it && other in root.mem
    ensures k == k0 || (k.color.Red? && Depth(k) == Depth(k0) + 1)
  {
    k := k0;
    SiblingAt(root.mem, root.node, k, t, node, h);
    SiblingExists(k, t, h);
    other := parent.left;
    if other.color.Red? {
      RedSiblingRightOk(k, t, h);
      EraseRedSiblingRight(parent, other, root, node, k, t);
      k := RedSiblingRight(k);
      SameOrder(k.up.up, Wrap(k.up, Wrap(k, t)), Wrap(k0, t));
      SiblingAt(root.mem, root.node, k, t, node, h);
      SiblingExists(k, t, h);
      other := parent.left;
    }
  }

  /** One turn of the loop of __rb_erase_color, position on the right. */
  method EraseStepRight(node: RbNode?, parent: RbNode, root: RbRoot, ghost k0: Ctx, ghost t: Tree, ghost h: int)
    returns (done: bool, node': RbNode?, parent': RbNode?, ghost k': Ctx, ghost t': Tree, ghost h': int)
    requires At(root, k0, t, node) && Deleting(k0, t, h) && !IsRed(t)
    requires k0.InRight? && parent == k0.it
    modifies root, root.mem.Keys
    ensures At(root, k', t', node') && parent' == Above(k') && root.mem.Keys == old(root.mem.Keys)
    ensures InOrder(Plug(k', t')) == InOrder(Plug(k0, t))
    ensures if done then k'.Top? && RedBlack(t') else Deleting(k', t', h') && Turns(k', t') < Turns(k0, t)
  {
    hide Deleting, InOrder;
    var other;
    ghost var k;
    other, k := BlackenSiblingRight(node, parent, root, k0, t, h);
    ChildrenAt(root.mem, k.left, other, parent);
    if (other.left == null || other.left.color.Black?) && (other.right == null || other.right.color.Black?) {
      t' := ErasePaintRight(parent, other, root, node, k, t, h);
      done, node', parent', k', h' := false, parent, parent.parent, k.up, h + Weight(k.color);
    } else {
      t' := EraseRotateRight(parent, other, root, node, k, t, h);
      done, node', parent', k', h' := true, root.node, null, Top, 0;
    }
  }

  /** __rb_erase_color, on a tree that is red-black except that one part is one black node short. */
  method EraseColor(node0: RbNode?, parent0: RbNode?, root: RbRoot, ghost k0: Ctx, ghost t0: Tree, ghost h0: int)
    returns (ghost t': Tree)
    requires At(root, k0, t0, node0) && Deleting(k0, t0, h0) && parent0 == Above(k0)
    modifies root, root.mem.Keys
    ensures At(root, Top, t', root.node) && root.mem.Keys == old(root.mem.Keys)
    ensures RedBlack(t') && InOrder(t') == InOrder(Plug(k0, t0))
  {
    var node, parent, done := node0, parent0, false;
    ghost var k, t, h := k0, t0, h0;
    while !done && (node == null || node.color.Black?) && node != root.node
      invariant At(root, k, t, node) && parent == Above(k) && root.mem.Keys == old(root.mem.Keys)
      invariant InOrder(Plug(k, t)) == InOrder(Plug(k0, t0))
      invariant if done then k.Top? && RedBlack(t) else Deleting(k, t, h)
      decreases !done, Turns(k, t)
    {
      SiblingAt(root.mem, root.node, k, t, node, h);
      if parent.left == node {
        done, node, parent, k, t, h := EraseStepLeft(node, parent, root, k, t, h);
      } else {
        done, node, parent, k, t, h := EraseStepRight(node, parent, root, k, t, h);
      }
    }
    if !done {
      if !k.Top? {
        SiblingAt(root.mem, root.node, k, t, node, h);
      }
      BlackenRepairs(k, t, h);
    }
    if node != null {
      SetColor(node, Black, root, k, t);
    }
    t' := Plug(k, Blackened(t));
    ToTop(root.mem, root.node, k, Blackened(t), node);
  }
}
