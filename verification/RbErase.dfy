/** rb_link_node and rb_erase: how nodes enter and leave a red-black tree. */
module RbErase {
  import opened RbShape
  import opened RbColor
  import opened RbTree

  // ---------- contexts inside contexts ----------

  ghost function App(s: Ctx, k: Ctx): Ctx {
    match s
    case Top => k
    case InLeft(c, x, r, up) => InLeft(c, x, r, App(up, k))
    case InRight(c, l, x, up) => InRight(c, l, x, App(up, k))
  }

  ghost function TopOf(t: Tree): RbNode? {
    if t.Leaf? then null else t.it
  }

  lemma {:induction false} PlugApp(s: Ctx, k: Ctx, t: Tree)
    ensures Plug(App(s, k), t) == Plug(k, Plug(s, t))
    decreases s
  {
    if !s.Top? {
      PlugApp(s.up, k, Wrap(s, t));
    }
  }

  lemma AboveApp(s: Ctx, k: Ctx)
    ensures Above(App(s, k)) == if s.Top? then Above(k) else s.it
  {
  }

  lemma {:induction false} OrderApp(s: Ctx, k: Ctx)
    ensures Before(App(s, k)) == Before(k) + Before(s)
    ensures After(App(s, k)) == After(s) + After(k)
  {
    match s
    case Top =>
    case InLeft(_, _, _, up) => OrderApp(up, k);
    case InRight(_, _, _, up) => OrderApp(up, k);
  }

  /** Which node sits at the top of the hole's surroundings plays no part in the colour rules. */
  lemma {:induction false} CtxOkApp(s: Ctx, c: Color, l: Tree, x: RbNode, y: RbNode, k: Ctx, h: int)
    ensures CtxOk(App(s, InRight(c, l, x, k)), h) == CtxOk(App(s, InRight(c, l, y, k)), h)
    ensures CtxRed(App(s, InRight(c, l, x, k))) == CtxRed(App(s, InRight(c, l, y, k)))
    decreases s
  {
    match s
    case Top =>
    case InLeft(c', _, _, up) => CtxOkApp(up, c, l, x, y, k, h + Weight(c'));
    case InRight(c', _, _, up) => CtxOkApp(up, c, l, x, y, k, h + Weight(c'));
  }

  lemma {:induction false} UpApp(m: Mem, top: RbNode?, s: Ctx, k: Ctx, t: Tree, n: RbNode?)
    requires Focus(m, top, App(s, k), t, n)
    ensures Focus(m, top, k, Plug(s, t), TopOf(Plug(s, t)))
    decreases s
  {
    if !s.Top? {
      Up(m, top, App(s, k), t, n);
      UpApp(m, top, s.up, k, Wrap(s, t), s.it);
    }
  }

  lemma {:induction false} DownApp(m: Mem, top: RbNode?, s: Ctx, k: Ctx, t: Tree, n: RbNode?)
    requires Focus(m, top, k, Plug(s, t), n)
    ensures Focus(m, top, App(s, k), t, TopOf(t))
    decreases s
  {
    if !s.Top? {
      DownApp(m, top, s.up, k, Wrap(s, t), n);
      Down(m, top, App(s.up, k), Wrap(s, t), s.it);
    }
  }

  // ---------- rb_link_node ----------

  /** The struct rb_node ** a caller passes to rb_link_node. */
  datatype Link = RootLink | LeftLink | RightLink

  ghost function LinkOf(k: Ctx): Link {
    match k
    case Top => RootLink
    case InLeft(_, _, _, _) => LeftLink
    case InRight(_, _, _, _) => RightLink
  }

  /** What rb_link_node writes. */
  ghost predicate Linked(m: Mem, m': Mem, k: Ctx, node: RbNode, top: RbNode?, top': RbNode?) {
    && node in m' && m'[node] == Cell(Above(k), Red, null, null)
    && Relinked(m, m', k, node, top, top')
    && forall x :: x in m && x != Above(k) ==> x in m' && m'[x] == m[x]
  }

  lemma LinkedFocus(m: Mem, m': Mem, k: Ctx, node: RbNode, top: RbNode?, top': RbNode?)
    requires Focus(m, top, k, Leaf, null) && node !in m && Linked(m, m', k, node, top, top')
    ensures Focus(m', top', k, Node(Red, Leaf, node, Leaf), node)
  {
    CtxIn(m, k, null, top);
    CtxRelink(m, m', k, null, node, top, top');
  }

  /** rb_link_node */
  method LinkWrites(node: RbNode, parent: RbNode?, link: Link, root: RbRoot)
    requires root.Synced() && node !in root.mem
    requires if parent == null then link.RootLink? else !link.RootLink? && parent in root.mem
    modifies root, root.mem.Keys, node
    ensures root.Synced() && root.mem.Keys == old(root.mem.Keys) + {node}
    ensures root.mem[node] == Cell(parent, Red, null, null)
    ensures root.node == if parent == null then node else old(root.node)
    ensures parent != null ==>
      var c := old(root.mem)[parent];
      root.mem[parent] == if link.LeftLink? then c.(left := node) else c.(right := node)
    ensures forall x :: x in old(root.mem) && x != parent ==> root.mem[x] == old(root.mem)[x]
  {
    node.parent, node.color := parent, Red;
    node.left, node.right := null, null;
    match link {
      case RootLink => root.node := node;
      case LeftLink => parent.left := node;
      case RightLink => parent.right := node;
    }
    root.mem := Snapshot(root.mem.Keys + {node});
  }

  /** A node becomes a red leaf at an empty position. */
  method LinkNode(node: RbNode, parent: RbNode?, link: Link, root: RbRoot, ghost k: Ctx)
    requires At(root, k, Leaf, null) && node !in root.mem
    requires parent == Above(k) && link == LinkOf(k)
    modifies root, root.mem.Keys, node
    ensures At(root, k, Node(Red, Leaf, node, Leaf), node) && root.mem.Keys == old(root.mem.Keys) + {node}
  {
    CtxIn(root.mem, k, null, root.node);
    LinkWrites(node, parent, link, root);
    LinkedFocus(old(root.mem), root.mem, k, node, old(root.node), root.node);
  }

  /** The calls rb_link_node; rb_insert_color of every client: the in-order sequence gains exactly the new node. */
  method Insert(node: RbNode, parent: RbNode?, link: Link, root: RbRoot, ghost k: Ctx) returns (ghost t: Tree)
    requires At(root, k, Leaf, null) && node !in root.mem && RedBlack(Plug(k, Leaf))
    requires parent == Above(k) && link == LinkOf(k)
    modifies root, root.mem.Keys, node
    ensures At(root, Top, t, root.node) && root.mem.Keys == old(root.mem.Keys) + {node}
    ensures RedBlack(t) && InOrder(t) == Before(k) + [node] + After(k)
    ensures !CtxRed(k) ==> t == Blackened(Plug(k, Node(Red, Leaf, node, Leaf)))
  {
    NewLeaf(k, node);
    hide Inserting, RedBlack, InOrder, Before, After, Plug, CtxRed, Blackened;
    LinkNode(node, parent, link, root, k);
    t := InsertColor(node, root, k, Node(Red, Leaf, node, Leaf), 0);
  }

  /** A red leaf at an empty position of a red-black tree. */
  lemma NewLeaf(k: Ctx, node: RbNode)
    requires RedBlack(Plug(k, Leaf))
    ensures var u := Node(Red, Leaf, node, Leaf);
      Inserting(k, u, 0) && InOrder(Plug(k, u)) == Before(k) + [node] + After(k)
  {
    UnplugRedBlack(k, Leaf);
    InOrderPlug(k, Node(Red, Leaf, node, Leaf));
    assert [] + [node] + [] == [node];
  }

  // ---------- rb_erase ----------

  /** The subtree that takes the place of a node with at most one child. */
  ghost function Rest(t: Tree): Tree
    requires t.Node?
  {
    if t.left.Leaf? then t.right else t.left
  }

  /** What the cells hold once child has taken the place of x. */
  ghost predicate Spliced(m: Mem, m': Mem, x: RbNode, child: RbNode?, top: RbNode?, top': RbNode?)
    requires x in m
  {
    var p := m[x].parent;
    && m'.Keys == m.Keys - {x}
    && (child != null ==> child in m' && child in m && m'[child] == m[child].(parent := p))
    && (if p == null then top' == child
        else
          && top' == top && p in m && p in m'
          && m'[p] == if m[p].left == x then m[p].(left := child) else m[p].(right := child))
    && forall z :: z in m && z != x && z != child && z != p ==> z in m' && m'[z] == m[z]
  }

  lemma SplicedFocus(m: Mem, m': Mem, k: Ctx, t: Tree, top: RbNode?, top': RbNode?)
    requires t.Node? && (t.left.Leaf? || t.right.Leaf?) && Focus(m, top, k, t, t.it)
    requires t.it in m && Spliced(m, m', t.it, TopOf(Rest(t)), top, top')
    ensures Focus(m', top', k, Rest(t), TopOf(Rest(t)))
  {
    var x, c := t.it, Rest(t);
    assert Distinct(c) && x !in Nodes(c) && Nodes(c) <= Nodes(t);
    assert TreeAt(m, t.left, m[x].left, x) && TreeAt(m, t.right, m[x].right, x);
    assert TreeAt(m, c, TopOf(c), x);
    TreeNodes(m, c, TopOf(c), x);
    CtxIn(m, k, x, top);
    TreeReparent(m, m', c, TopOf(c), x, Above(k));
    if !k.Top? {
      Side(m, k, x, top);
    }
    CtxRelink(m, m', k, x, TopOf(c), top, top');
  }

  /** The writes that put child in the place of node, its only subtree if it has any. */
  method SpliceWrites(node: RbNode, child: RbNode?, root: RbRoot)
    requires root.Synced() && node in root.mem && child != node
    requires child != null ==> child in root.mem && child != node.parent
    requires node.parent != null ==> node.parent in root.mem && node.parent != node
    modifies root, root.mem.Keys
    ensures root.Synced() && Spliced(old(root.mem), root.mem, node, child, old(root.node), root.node)
    ensures unchanged(node)
  {
    var parent := node.parent;
    if child != null {
      child.parent := parent;
    }
    if parent != null {
      if parent.left == node {
        parent.left := child;
      } else {
        parent.right := child;
      }
    } else {
      root.node := child;
    }
    root.mem := Snapshot(root.mem.Keys - {node});
  }

  /** Takes a node with at most one child out of the tree. */
  method Splice(node: RbNode, child: RbNode?, root: RbRoot, ghost k: Ctx, ghost t: Tree)
    requires t.Node? && (t.left.Leaf? || t.right.Leaf?) && At(root, k, t, node) && child == TopOf(Rest(t))
    modifies root, root.mem.Keys
    ensures At(root, k, Rest(t), child) && root.mem.Keys == old(root.mem.Keys) - {node} && unchanged(node)
  {
    TreeNodes(root.mem, t, node, Above(k));
    CtxIn(root.mem, k, node, root.node);
    assert child != null ==> child in Nodes(Rest(t));
    SpliceWrites(node, child, root);
    SplicedFocus(old(root.mem), root.mem, k, t, old(root.node), root.node);
  }

  /** What the cells hold once y, so far unlinked, has taken over the place and the links of x. */
  ghost predicate Replaced(m: Mem, m': Mem, x: RbNode, y: RbNode, top: RbNode?, top': RbNode?)
    requires x in m
  {
    var c := m[x];
    && m'.Keys == m.Keys - {x} + {y}
    && m'[y] == c
    && (c.left != null ==> c.left in m && c.left in m' && m'[c.left] == m[c.left].(parent := y))
    && (c.right != null ==> c.right in m && c.right in m' && m'[c.right] == m[c.right].(parent := y))
    && (if c.parent == null then top' == y
        else top' == top && c.parent in m && c.parent in m' &&
             m'[c.parent] == if m[c.parent].left == x then m[c.parent].(left := y) else m[c.parent].(right := y))
    && forall z :: z in m && z != x && z != c.left && z != c.right && z != c.parent ==> z in m' && m'[z] == m[z]
  }

  lemma ReplacedFocus(m: Mem, m': Mem, k: Ctx, t: Tree, y: RbNode, top: RbNode?, top': RbNode?)
    requires t.Node? && Focus(m, top, k, t, t.it) && y !in m
    requires t.it in m && Replaced(m, m', t.it, y, top, top')
    ensures Focus(m', top', k, t.(it := y), y)
  {
    var x := t.it;
    TreeNodes(m, t, x, Above(k));
    CtxIn(m, k, x, top);
    assert TreeAt(m, t.left, m[x].left, x) && TreeAt(m, t.right, m[x].right, x);
    assert m[x].left != null ==> m[x].left in Nodes(t.left);
    assert m[x].right != null ==> m[x].right in Nodes(t.right);
    assert Nodes(t) == Nodes(t.left) + {x} + Nodes(t.right);
    TreeReparent(m, m', t.left, m[x].left, x, y);
    TreeReparent(m, m', t.right, m[x].right, x, y);
    if !k.Top? {
      Side(m, k, x, top);
    }
    CtxRelink(m, m', k, x, y, top, top');
  }

  /** The second half of the two-children case of rb_erase: node takes over the place of old. */
  method ReplaceWrites(was: RbNode, node: RbNode, root: RbRoot)
    requires root.Synced() && was in root.mem && node !in root.mem && was.left != null
    requires var c := root.mem[was];
      && c.left != was && c.right != was && c.parent != was
      && c.left in root.mem && c.left != c.right && c.left != c.parent
      && (c.right != null ==> c.right in root.mem && c.right != c.parent)
      && (c.parent != null ==> c.parent in root.mem)
    modifies root, root.mem.Keys, node
    ensures root.Synced() && Replaced(old(root.mem), root.mem, was, node, old(root.node), root.node)
  {
    node.parent, node.color := was.parent, was.color;
    node.right := was.right;
    node.left := was.left;
    if was.parent != null {
      if was.parent.left == was {
        was.parent.left := node;
      } else {
        was.parent.right := node;
      }
    } else {
      root.node := node;
    }
    was.left.parent := node;
    if was.right != null {
      was.right.parent := node;
    }
    root.mem := Snapshot(root.mem.Keys - {was} + {node});
  }

  method Replace(was: RbNode, node: RbNode, root: RbRoot, ghost k: Ctx, ghost t: Tree)
    requires t.Node? && t.left.Node? && At(root, k, t, was) && node !in root.mem
    modifies root, root.mem.Keys, node
    ensures At(root, k, t.(it := node), node) && root.mem.Keys == old(root.mem.Keys) - {was} + {node}
  {
    ReplaceReady(root.mem, k, t, root.node);
    ReplaceWrites(was, node, root);
    ReplacedFocus(old(root.mem), root.mem, k, t, node, old(root.node), root.node);
  }

  lemma ReplaceReady(m: Mem, k: Ctx, t: Tree, top: RbNode?)
    requires t.Node? && t.left.Node? && Focus(m, top, k, t, t.it)
    ensures t.it in m && var c := m[t.it];
      && c.left != null && c.left != t.it && c.right != t.it && c.parent != t.it
      && c.left in m && c.left != c.right && c.left != c.parent
      && (c.right != null ==> c.right in m && c.right != c.parent)
      && (c.parent != null ==> c.parent in m)
  {
    var x := t.it;
    assert TreeAt(m, t.left, m[x].left, x) && TreeAt(m, t.right, m[x].right, x);
    assert m[x].left in Nodes(t.left);
    assert m[x].right != null ==> m[x].right in Nodes(t.right);
    assert Nodes(t) == Nodes(t.left) + {x} + Nodes(t.right);
  }

  /** The loop that looks for the successor: the leftmost node of t, and its surroundings inside t. */
  method Leftmost(n: RbNode, root: RbRoot, ghost k: Ctx, ghost t: Tree)
    returns (node: RbNode, ghost s: Ctx, ghost u: Tree)
    requires t.Node? && At(root, k, t, n)
    ensures At(root, App(s, k), u, node) && u.Node? && u.left.Leaf? && u.it == node
    ensures t == Plug(s, u) && Before(s) == []
  {
    node, s, u := n, Top, t;
    while node.left != null
      invariant At(root, App(s, k), u, node) && u.Node?
      invariant t == Plug(s, u) && Before(s) == []
      decreases u
    {
      Down(root.mem, root.node, App(s, k), u, node);
      s, u, node := InLeft(u.color, node, u.right, s), u.left, node.left;
    }
    ChildrenAt(root.mem, u, node, Above(App(s, k)));
  }

  /** What is left of a tree without a node t that has at most one child; the fix-up is due if t was black. */
  ghost predicate Shortened(k: Ctx, u: Tree, c: Color, h: int) {
    if c.Black? then Deleting(k, u, h) else RedBlack(Plug(k, u))
  }

  lemma SpliceColors(k: Ctx, k': Ctx, t: Tree)
    requires t.Node? && (t.left.Leaf? || t.right.Leaf?) && RedBlack(Plug(k, t))
    requires CtxOk(k', BlackHeight(t)) == CtxOk(k, BlackHeight(t)) && CtxRed(k) == CtxRed(k')
    ensures Shortened(k', Rest(t), t.color, 0)
  {
    UnplugRedBlack(k, t);
    BalHeight(t.left, BlackHeight(t) - Weight(t.color));
    BalHeight(t.right, BlackHeight(t) - Weight(t.color));
    if t.color.Red? {
      PlugRedBlack(k', Rest(t), BlackHeight(t));
    }
  }

  lemma SpliceOrder(k: Ctx, t: Tree)
    requires t.Node? && (t.left.Leaf? || t.right.Leaf?)
    ensures InOrder(Plug(k, Rest(t))) == Before(k) + InOrder(t.left) + InOrder(t.right) + After(k)
  {
    InOrderPlug(k, Rest(t));
    if t.left.Leaf? {
      assert Before(k) + InOrder(t.left) == Before(k);
    } else {
      assert Before(k) + InOrder(t.left) + InOrder(t.right) == Before(k) + InOrder(t.left);
    }
  }

  /** The same for the successor s, u of a node t with two children, once it stands in the place of t. */
  lemma SuccessorColors(k: Ctx, t: Tree, s: Ctx, u: Tree)
    requires t.Node? && t.right == Plug(s, u) && u.Node? && u.left.Leaf? && RedBlack(Plug(k, t))
    ensures Shortened(App(s, InRight(t.color, t.left, u.it, k)), u.right, u.color, 0)
  {
    var k0 := InRight(t.color, t.left, t.it, k);
    PlugApp(s, k0, u);
    CtxOkApp(s, t.color, t.left, t.it, u.it, k, BlackHeight(u));
    SpliceColors(App(s, k0), App(s, InRight(t.color, t.left, u.it, k)), u);
  }

  lemma SuccessorOrder(k: Ctx, t: Tree, s: Ctx, u: Tree)
    requires t.Node? && t.right == Plug(s, u) && Before(s) == [] && u.Node? && u.left.Leaf?
    ensures InOrder(Plug(App(s, InRight(t.color, t.left, u.it, k)), u.right))
         == Before(k) + InOrder(t.left) + InOrder(t.right) + After(k)
  {
    var k' := InRight(t.color, t.left, u.it, k);
    InOrderPlug(App(s, k'), u.right);
    OrderApp(s, k');
    InOrderPlug(s, u);
    Regroup(Before(k), InOrder(t.left), [u.it], InOrder(u.right), After(s), After(k));
  }

  lemma Regroup(a: seq<RbNode>, b: seq<RbNode>, y: seq<RbNode>, d: seq<RbNode>, e: seq<RbNode>, f: seq<RbNode>)
    ensures (a + b + y + []) + d + (e + f) == a + b + ([] + ([] + y + d) + e) + f
  {
  }

  /** rb_erase, the case of two children: the successor of was leaves the tree. */
  method UnlinkSuccessor(was: RbNode, root: RbRoot, ghost k: Ctx, ghost t: Tree)
    returns (node: RbNode, child: RbNode?, parent: RbNode?, ghost s: Ctx, ghost u: Tree)
    requires t.Node? && t.right.Node? && At(root, k, t, was)
    modifies root, root.mem.Keys
    ensures t.right == Plug(s, u) && Before(s) == [] && u.Node? && u.left.Leaf? && u.it == node && u.color == node.color
    ensures child == TopOf(u.right) && (if s.Top? then parent == was else parent == s.it != was)
    ensures At(root, k, t.(right := Plug(s, u.right)), was) && root.mem.Keys == old(root.mem.Keys) - {node}
    ensures node in old(root.mem) && node != was
  {
    ghost var kw := InRight(t.color, t.left, was, k);
    Down(root.mem, root.node, k, t, was);
    node, s, u := Leftmost(was.right, root, kw, t.right);
    ChildrenAt(root.mem, u, node, Above(App(s, kw)));
    child, parent := node.right, node.parent;
    NodesPlug(s, u);
    assert node in Nodes(u) && was !in Nodes(t.right);
    Splice(node, child, root, App(s, kw), u);
    UpApp(root.mem, root.node, s, kw, u.right, child);
    Up(root.mem, root.node, kw, Plug(s, u.right), TopOf(Plug(s, u.right)));
  }

  lemma DownRight(m: Mem, top: RbNode?, k: Ctx, c: Color, l: Tree, x: RbNode, s: Ctx, u: Tree)
    requires Focus(m, top, k, Node(c, l, x, Plug(s, u)), x)
    ensures Focus(m, top, App(s, InRight(c, l, x, k)), u, TopOf(u))
  {
    Down(m, top, k, Node(c, l, x, Plug(s, u)), x);
    DownApp(m, top, s, InRight(c, l, x, k), u, m[x].right);
  }

  /** rb_erase, the case of two children, up to the label color. */
  method EraseTwo(was: RbNode, root: RbRoot, ghost k: Ctx, ghost t: Tree)
    returns (child: RbNode?, parent: RbNode?, color: Color, ghost k': Ctx, ghost s: Ctx, ghost u: Tree)
    requires t.Node? && t.left.Node? && t.right.Node? && At(root, k, t, was)
    modifies root, root.mem.Keys
    ensures t.right == Plug(s, u) && Before(s) == [] && u.Node? && u.left.Leaf? && color == u.color
    ensures k' == App(s, InRight(t.color, t.left, u.it, k))
    ensures At(root, k', u.right, child) && parent == Above(k') && root.mem.Keys == old(root.mem.Keys) - {was}
  {
    hide Focus, Plug, Before;
    var node;
    node, child, parent, s, u := UnlinkSuccessor(was, root, k, t);
    color := node.color;
    ghost var ks := root.mem.Keys;
    Replace(was, node, root, k, t.(right := Plug(s, u.right)));
    assert ks - {was} + {node} == old(root.mem.Keys) - {was};
    DownRight(root.mem, root.node, k, t.color, t.left, node, s, u.right);
    ghost var kw := InRight(t.color, t.left, node, k);
    k' := App(s, kw);
    AboveApp(s, kw);
    if parent == was {
      parent := node;
    }
  }

  /** rb_erase from the label color on. */
  method EraseFinish(child: RbNode?, parent: RbNode?, color: Color, root: RbRoot, ghost k: Ctx, ghost u: Tree)
    returns (ghost t': Tree)
    requires At(root, k, u, child) && parent == Above(k) && Shortened(k, u, color, 0)
    modifies root, root.mem.Keys
    ensures At(root, Top, t', root.node) && root.mem.Keys == old(root.mem.Keys)
    ensures RedBlack(t') && InOrder(t') == InOrder(Plug(k, u))
  {
    if color.Black? {
      t' := EraseColor(child, parent, root, k, u, 0);
    } else {
      t' := Plug(k, u);
      ToTop(root.mem, root.node, k, u, child);
    }
  }

  /** rb_erase of the node at a given position. */
  method EraseAt(node: RbNode, root: RbRoot, ghost k: Ctx, ghost t: Tree) returns (ghost t': Tree)
    requires t.Node? && At(root, k, t, node) && RedBlack(Plug(k, t))
    modifies root, root.mem.Keys
    ensures At(root, Top, t', root.node) && root.mem.Keys == old(root.mem.Keys) - {node}
    ensures RedBlack(t') && InOrder(t') == Before(k) + InOrder(t.left) + InOrder(t.right) + After(k)
  {
    ChildrenAt(root.mem, t, node, Above(k));
    if node.left == null || node.right == null {
      var child := if node.left == null then node.right else node.left;
      var parent, color := node.parent, node.color;
      SpliceColors(k, k, t);
      SpliceOrder(k, t);
      Splice(node, child, root, k, t);
      t' := EraseFinish(child, parent, color, root, k, Rest(t));
    } else {
      var child, parent, color;
      ghost var k', s, u;
      child, parent, color, k', s, u := EraseTwo(node, root, k, t);
      SuccessorColors(k, t, s, u);
      SuccessorOrder(k, t, s, u);
      t' := EraseFinish(child, parent, color, root, k', u.right);
    }
  }
}
