/** The red-black tree as its users see it: a red-black ordered sequence of distinct nodes. */
module RbSet {
  import opened RbShape
  import opened RbColor
  import opened RbTree
  import opened RbErase

  /** The nodes below root spell out root.tree, which is a red-black tree. */
  ghost predicate Valid(root: RbRoot)
    reads root, root.mem.Keys
  {
    At(root, Top, root.tree, root.node) && RedBlack(root.tree) && root.mem.Keys == Nodes(root.tree)
  }

  lemma KeysOf(root: RbRoot)
    requires Valid(root)
    ensures root.mem.Keys == Nodes(root.tree)
  {
  }

  /** s without the first occurrence of x. */
  ghost function Without(s: seq<RbNode>, x: RbNode): seq<RbNode> {
    if s == [] then [] else if s[0] == x then s[1..] else [s[0]] + Without(s[1..], x)
  }

  lemma {:induction false} WithoutAt(a: seq<RbNode>, x: RbNode, b: seq<RbNode>)
    requires x !in a
    ensures Without(a + [x] + b, x) == a + b
  {
    var s := a + [x] + b;
    if a == [] {
      assert s[1..] == b;
    } else {
      assert s[1..] == a[1..] + [x] + b;
      WithoutAt(a[1..], x, b);
    }
  }

  lemma {:induction false} InOrderNode(t: Tree, x: RbNode)
    ensures x in InOrder(t) <==> x in Nodes(t)
  {
    if t.Node? {
      InOrderNode(t.left, x);
      InOrderNode(t.right, x);
    }
  }

  lemma {:induction false} CtxOrderNode(k: Ctx, x: RbNode)
    ensures x in Before(k) || x in After(k) <==> x in CtxNodes(k)
  {
    match k
    case Top =>
    case InLeft(_, _, r, up) =>
      InOrderNode(r, x);
      CtxOrderNode(up, x);
    case InRight(_, l, _, up) =>
      InOrderNode(l, x);
      CtxOrderNode(up, x);
  }

  /** Every node of the tree is at some position of it. */
  lemma {:induction false} Locate(m: Mem, top: RbNode?, k: Ctx, t: Tree, n: RbNode?, x: RbNode)
    returns (k': Ctx, t': Tree)
    requires Focus(m, top, k, t, n) && x in Nodes(t)
    ensures Focus(m, top, k', t', x) && t'.Node? && t'.it == x && Plug(k', t') == Plug(k, t)
    decreases t
  {
    if t.it == x {
      return k, t;
    }
    Down(m, top, k, t, t.it);
    if x in Nodes(t.left) {
      k', t' := Locate(m, top, InLeft(t.color, t.it, t.right, k), t.left, m[t.it].left, x);
    } else {
      k', t' := Locate(m, top, InRight(t.color, t.left, t.it, k), t.right, m[t.it].right, x);
    }
  }

  /** rb_erase: whichever node goes, what stays is a red-black tree of the other nodes in the same order. */
  method Erase(node: RbNode, root: RbRoot)
    requires Valid(root) && node in Nodes(root.tree)
    modifies root, root.mem.Keys
    ensures Valid(root) && root.mem.Keys == old(root.mem.Keys) - {node}
    ensures InOrder(root.tree) == Without(old(InOrder(root.tree)), node)
  {
    ghost var t := root.tree;
    ghost var k, u := Locate(root.mem, root.node, Top, t, root.node, node);
    EraseOrder(k, u);
    ghost var t' := EraseAt(node, root, k, u);
    RemainingNodes(k, u, t');
    root.tree := t';
  }

  /** rb_link_node; rb_insert_color: the new node joins the sequence at the position the caller found. */
  method InsertAt(node: RbNode, parent: RbNode?, link: Link, root: RbRoot, ghost k: Ctx)
    requires Valid(root) && Plug(k, Leaf) == root.tree && At(root, k, Leaf, null) && node !in root.mem
    requires parent == Above(k) && link == LinkOf(k)
    modifies root, root.mem.Keys, node
    ensures Valid(root) && root.mem.Keys == old(root.mem.Keys) + {node}
    ensures InOrder(root.tree) == Before(k) + [node] + After(k)
    ensures !CtxRed(k) ==> root.tree == Blackened(Plug(k, Node(Red, Leaf, node, Leaf)))
  {
    hide Focus, RedBlack, Before, After, Blackened;
    ghost var t := Insert(node, parent, link, root, k);
    NodesPlug(k, Leaf);
    Joined(k, node, t);
    root.tree := t;
  }

  lemma Joined(k: Ctx, node: RbNode, t: Tree)
    requires InOrder(t) == Before(k) + [node] + After(k)
    ensures Nodes(t) == CtxNodes(k) + {node}
  {
    forall x | x in Nodes(t) ensures x in CtxNodes(k) + {node} {
      InOrderNode(t, x);
      CtxOrderNode(k, x);
    }
    forall x | x in CtxNodes(k) + {node} ensures x in Nodes(t) {
      InOrderNode(t, x);
      CtxOrderNode(k, x);
    }
  }

  lemma WithoutParts(a: seq<RbNode>, b: seq<RbNode>, x: RbNode, c: seq<RbNode>, d: seq<RbNode>)
    requires x !in a && x !in b
    ensures Without(a + (b + [x] + c) + d, x) == a + b + c + d
  {
    assert a + (b + [x] + c) + d == (a + b) + [x] + (c + d);
    WithoutAt(a + b, x, c + d);
    assert (a + b) + (c + d) == a + b + c + d;
  }

  lemma EraseOrder(k: Ctx, u: Tree)
    requires u.Node? && Distinct(u) && Nodes(u) !! CtxNodes(k)
    ensures Without(InOrder(Plug(k, u)), u.it) == Before(k) + InOrder(u.left) + InOrder(u.right) + After(k)
  {
    InOrderPlug(k, u);
    CtxOrderNode(k, u.it);
    InOrderNode(u.left, u.it);
    assert u.it in Nodes(u);
    WithoutParts(Before(k), InOrder(u.left), u.it, InOrder(u.right), After(k));
  }

  /** The nodes before and after the one at the top of t. */
  ghost function LeftOf(k: Ctx, t: Tree): seq<RbNode>
    requires t.Node?
  {
    Before(k) + InOrder(t.left)
  }

  ghost function RightOf(k: Ctx, t: Tree): seq<RbNode>
    requires t.Node?
  {
    InOrder(t.right) + After(k)
  }

  lemma Regrouped(a: seq<RbNode>, b: seq<RbNode>, x: RbNode, c: seq<RbNode>, d: seq<RbNode>)
    ensures a + (b + [x] + c) + d == (a + b) + [x] + (c + d)
    ensures a + b + c + d == (a + b) + (c + d)
  {
  }

  lemma OrderAround(k: Ctx, t: Tree)
    requires t.Node?
    ensures InOrder(Plug(k, t)) == LeftOf(k, t) + [t.it] + RightOf(k, t)
    ensures Distinct(t) && Nodes(t) !! CtxNodes(k) ==>
              Without(InOrder(Plug(k, t)), t.it) == LeftOf(k, t) + RightOf(k, t)
  {
    InOrderPlug(k, t);
    Regrouped(Before(k), InOrder(t.left), t.it, InOrder(t.right), After(k));
    if Distinct(t) && Nodes(t) !! CtxNodes(k) {
      EraseOrder(k, t);
    }
  }

  lemma RemainingNodes(k: Ctx, u: Tree, t: Tree)
    requires u.Node? && Distinct(u) && Nodes(u) !! CtxNodes(k)
    requires InOrder(t) == Before(k) + InOrder(u.left) + InOrder(u.right) + After(k)
    ensures Nodes(t) == Nodes(Plug(k, u)) - {u.it}
  {
    var rest := Nodes(Plug(k, u)) - {u.it};
    forall x | x in Nodes(t) ensures x in rest {
      Remaining(k, u, t, x);
    }
    forall x | x in rest ensures x in Nodes(t) {
      Remaining(k, u, t, x);
    }
  }

  lemma Remaining(k: Ctx, u: Tree, t: Tree, x: RbNode)
    requires u.Node? && Distinct(u) && Nodes(u) !! CtxNodes(k)
    requires InOrder(t) == Before(k) + InOrder(u.left) + InOrder(u.right) + After(k)
    ensures x in Nodes(t) <==> x in Nodes(Plug(k, u)) && x != u.it
  {
    NodesPlug(k, u);
    assert u.it in Nodes(u);
    InOrderNode(t, x);
    InParts(Before(k), InOrder(u.left), InOrder(u.right), After(k), x);
    CtxOrderNode(k, x);
    InOrderNode(u.left, x);
    InOrderNode(u.right, x);
  }

  lemma InParts(a: seq<RbNode>, b: seq<RbNode>, c: seq<RbNode>, d: seq<RbNode>, x: RbNode)
    ensures x in a + b + c + d <==> x in a || x in b || x in c || x in d
  {
    assert x in a + b + c + d <==> x in a + b + c || x in d;
    assert x in a + b + c <==> x in a + b || x in c;
  }

  // ---------- height ----------

  ghost function Height(t: Tree): nat {
    if t.Leaf? then 0 else 1 + if Height(t.left) < Height(t.right) then Height(t.right) else Height(t.left)
  }

  ghost function Pow2(n: nat): nat {
    if n == 0 then 1 else 2 * Pow2(n - 1)
  }

  lemma {:induction false} ManyNodes(t: Tree, h: nat)
    requires Bal(t, h)
    ensures Pow2(h) <= |InOrder(t)| + 1
  {
    if t.Node? && t.color.Black? {
      BalHeight(t.left, h - 1);
      ManyNodes(t.left, h - 1);
      ManyNodes(t.right, h - 1);
    } else if t.Node? {
      ManyNodes(t.left, h);
    }
  }

  lemma {:induction false} ShortPaths(t: Tree, h: nat)
    requires Bal(t, h) && NoRedRed(t)
    ensures Height(t) <= 2 * h + if IsRed(t) then 1 else 0
  {
    if t.Node? {
      BalHeight(t.left, h - Weight(t.color));
      ShortPaths(t.left, h - Weight(t.color));
      ShortPaths(t.right, h - Weight(t.color));
    }
  }

  lemma {:induction false} Pow2Sum(a: nat, b: nat)
    ensures Pow2(a + b) == Pow2(a) * Pow2(b)
  {
    if a > 0 {
      Pow2Sum(a - 1, b);
      assert Pow2(a + b) == 2 * Pow2(a + b - 1) == 2 * (Pow2(a - 1) * Pow2(b)) == Pow2(a) * Pow2(b);
    }
  }

  lemma {:induction false} Pow2Mono(a: nat, b: nat)
    requires a <= b
    ensures Pow2(a) <= Pow2(b)
  {
    if a < b {
      Pow2Mono(a, b - 1);
    }
  }

  /** A red-black tree of n nodes is at most 2 * log2(n + 1) high. */
  lemma LogHeight(t: Tree)
    requires RedBlack(t)
    ensures var n := |InOrder(t)|; Pow2(Height(t)) <= (n + 1) * (n + 1)
  {
    var h := BlackHeight(t);
    BalHeight(t, h);
    ShortPaths(t, h);
    ManyNodes(t, h);
    Pow2Mono(Height(t), h + h);
    Pow2Sum(h, h);
    Squares(Pow2(h), |InOrder(t)| + 1);
  }

  lemma Squares(p: nat, q: nat)
    requires p <= q
    ensures p * p <= q * q
  {
  }
}
