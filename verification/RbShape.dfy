/** The linked structure of the red-black tree: nodes, the tree a set of nodes spells out, and
    one-hole contexts that describe everything around the node an algorithm is looking at. */
module RbShape {

  datatype Color = Red | Black

  /** struct rb_node; rb_parent_color is kept as the two fields parent and color. */
  class RbNode {
    var parent: RbNode?
    var color: Color
    var right: RbNode?
    var left: RbNode?

    constructor ()
      ensures parent == null && color == Red && right == null && left == null
    {
      parent, color, right, left := null, Red, null, null;
    }
  }

  /** The fields of one node, as a value. */
  datatype Cell = Cell(parent: RbNode?, color: Color, left: RbNode?, right: RbNode?)

  /** The fields of a set of nodes, as a value: pure lemmas speak of this and not of the heap. */
  type Mem = map<RbNode, Cell>

  ghost function Snapshot(s: set<RbNode>): (m: Mem)
    reads s
    ensures m.Keys == s
  {
    map x | x in s :: Cell(x.parent, x.color, x.left, x.right)
  }

  /** struct rb_root, with the nodes below it and what they hold. */
  class RbRoot {
    var node: RbNode?
    ghost var mem: Mem
    ghost var tree: Tree  // what the links spell out, between operations

    constructor ()
      ensures node == null && mem == map[] && tree == Leaf
    {
      node, mem, tree := null, map[], Leaf;
    }

    /** mem is what the nodes on the heap hold. */
    ghost predicate Synced()
      reads this, mem.Keys
    {
      mem == Snapshot(mem.Keys)
    }
  }

  /** The tree that nodes spell out through their left and right links. */
  datatype Tree = Leaf | Node(color: Color, left: Tree, it: RbNode, right: Tree)

  /** Everything around one position of a tree, from the position upwards. */
  datatype Ctx =
    | Top
    | InLeft(color: Color, it: RbNode, right: Tree, up: Ctx)
    | InRight(color: Color, left: Tree, it: RbNode, up: Ctx)

  ghost function Nodes(t: Tree): set<RbNode> {
    match t
    case Leaf => {}
    case Node(_, l, x, r) => Nodes(l) + {x} + Nodes(r)
  }

  ghost function CtxNodes(k: Ctx): set<RbNode> {
    match k
    case Top => {}
    case InLeft(_, x, r, up) => {x} + Nodes(r) + CtxNodes(up)
    case InRight(_, l, x, up) => {x} + Nodes(l) + CtxNodes(up)
  }

  /** No node occurs twice in t. */
  ghost predicate Distinct(t: Tree) {
    match t
    case Leaf => true
    case Node(_, l, x, r) =>
      Distinct(l) && Distinct(r) && x !in Nodes(l) && x !in Nodes(r) && Nodes(l) !! Nodes(r)
  }

  ghost predicate CtxDistinct(k: Ctx) {
    match k
    case Top => true
    case InLeft(_, x, r, up) =>
      Distinct(r) && CtxDistinct(up) && x !in Nodes(r) && x !in CtxNodes(up) && Nodes(r) !! CtxNodes(up)
    case InRight(_, l, x, up) =>
      Distinct(l) && CtxDistinct(up) && x !in Nodes(l) && x !in CtxNodes(up) && Nodes(l) !! CtxNodes(up)
  }

  /** The parent of whatever sits in the hole. */
  ghost function Above(k: Ctx): RbNode? {
    if k.Top? then null else k.it
  }

  /** The links in m, followed from n, spell out t, with consistent parent links and p above. */
  ghost predicate TreeAt(m: Mem, t: Tree, n: RbNode?, p: RbNode?) {
    match t
    case Leaf => n == null
    case Node(c, l, x, r) =>
      n == x && x in m && m[x].color == c && m[x].parent == p &&
      TreeAt(m, l, m[x].left, x) && TreeAt(m, r, m[x].right, x)
  }

  /** The links in m around a position, below the root link top, spell out k; n is the link into the position. */
  ghost predicate CtxAt(m: Mem, k: Ctx, n: RbNode?, top: RbNode?) {
    match k
    case Top => top == n
    case InLeft(c, x, r, up) =>
      x in m && m[x].left == n && m[x].color == c && m[x].parent == Above(up) &&
      TreeAt(m, r, m[x].right, x) && CtxAt(m, up, x, top)
    case InRight(c, l, x, up) =>
      x in m && m[x].right == n && m[x].color == c && m[x].parent == Above(up) &&
      TreeAt(m, l, m[x].left, x) && CtxAt(m, up, x, top)
  }

  /** The structure below the root link top is t inside k; n is the link to t. */
  ghost predicate Focus(m: Mem, top: RbNode?, k: Ctx, t: Tree, n: RbNode?) {
    Distinct(t) && CtxDistinct(k) && Nodes(t) !! CtxNodes(k) &&
    TreeAt(m, t, n, Above(k)) && CtxAt(m, k, n, top)
  }

  /** One frame of k around t. */
  ghost function Wrap(k: Ctx, t: Tree): (w: Tree)
    requires !k.Top?
    ensures w.Node? && w.it == k.it && w.color == k.color
  {
    match k
    case InLeft(c, x, r, _) => Node(c, t, x, r)
    case InRight(c, l, x, _) => Node(c, l, x, t)
  }

  ghost function Plug(k: Ctx, t: Tree): Tree {
    if k.Top? then t else Plug(k.up, Wrap(k, t))
  }

  lemma {:induction false} TreeNodes(m: Mem, t: Tree, n: RbNode?, p: RbNode?)
    requires TreeAt(m, t, n, p)
    ensures Nodes(t) <= m.Keys
  {
    match t
    case Leaf =>
    case Node(_, l, x, r) =>
      TreeNodes(m, l, m[x].left, x);
      TreeNodes(m, r, m[x].right, x);
  }

  lemma {:induction false} CtxIn(m: Mem, k: Ctx, n: RbNode?, top: RbNode?)
    requires CtxAt(m, k, n, top)
    ensures CtxNodes(k) <= m.Keys
  {
    match k
    case Top =>
    case InLeft(_, x, r, up) =>
      TreeNodes(m, r, m[x].right, x);
      CtxIn(m, up, x, top);
    case InRight(_, l, x, up) =>
      TreeNodes(m, l, m[x].left, x);
      CtxIn(m, up, x, top);
  }

  lemma Up(m: Mem, top: RbNode?, k: Ctx, t: Tree, n: RbNode?)
    requires !k.Top? && Focus(m, top, k, t, n)
    ensures Focus(m, top, k.up, Wrap(k, t), k.it)
  {
  }

  lemma Down(m: Mem, top: RbNode?, k: Ctx, t: Tree, n: RbNode)
    requires t.Node? && Focus(m, top, k, t, n)
    ensures n in m
    ensures Focus(m, top, InLeft(t.color, n, t.right, k), t.left, m[n].left)
    ensures Focus(m, top, InRight(t.color, t.left, n, k), t.right, m[n].right)
  {
  }

  lemma {:induction false} ToTop(m: Mem, top: RbNode?, k: Ctx, t: Tree, n: RbNode?)
    requires Focus(m, top, k, t, n)
    ensures Focus(m, top, Top, Plug(k, t), top)
    ensures !k.Top? ==> top in CtxNodes(k)
    decreases k
  {
    if !k.Top? {
      Up(m, top, k, t, n);
      ToTop(m, top, k.up, Wrap(k, t), k.it);
    }
  }

  /** Writes to nodes outside t do not disturb it. */
  lemma {:induction false} TreeFrame(m: Mem, m': Mem, t: Tree, n: RbNode?, p: RbNode?)
    requires TreeAt(m, t, n, p)
    requires forall x :: x in Nodes(t) ==> x in m' && (x in m ==> m'[x] == m[x])
    ensures TreeAt(m', t, n, p)
  {
    match t
    case Leaf =>
    case Node(_, l, x, r) =>
      TreeFrame(m, m', l, m[x].left, x);
      TreeFrame(m, m', r, m[x].right, x);
  }

  lemma {:induction false} CtxFrame(m: Mem, m': Mem, k: Ctx, n: RbNode?, top: RbNode?)
    requires CtxAt(m, k, n, top)
    requires forall x :: x in CtxNodes(k) ==> x in m' && (x in m ==> m'[x] == m[x])
    ensures CtxAt(m', k, n, top)
  {
    match k
    case Top =>
    case InLeft(_, x, r, up) =>
      TreeFrame(m, m', r, m[x].right, x);
      CtxFrame(m, m', up, x, top);
    case InRight(_, l, x, up) =>
      TreeFrame(m, m', l, m[x].left, x);
      CtxFrame(m, m', up, x, top);
  }

  /** Writing the parent link of the node at the top of t. */
  lemma TreeReparent(m: Mem, m': Mem, t: Tree, n: RbNode?, p: RbNode?, q: RbNode?)
    requires TreeAt(m, t, n, p) && Distinct(t)
    requires n != null ==> n in m && n in m' && m'[n] == m[n].(parent := q)
    requires forall x :: x in Nodes(t) && x != n ==> x in m' && (x in m ==> m'[x] == m[x])
    ensures TreeAt(m', t, n, q)
  {
    match t
    case Leaf =>
    case Node(_, l, x, r) =>
      TreeFrame(m, m', l, m[x].left, x);
      TreeFrame(m, m', r, m[x].right, x);
  }

  /** The writes that redirect the link into the position of k from was to now. */
  ghost predicate Relinked(m: Mem, m': Mem, k: Ctx, now: RbNode?, top: RbNode?, top': RbNode?) {
    match k
    case Top => top' == now
    case InLeft(_, x, _, _) => top' == top && x in m && x in m' && m'[x] == m[x].(left := now)
    case InRight(_, _, x, _) => top' == top && x in m && x in m' && m'[x] == m[x].(right := now)
  }

  lemma CtxRelink(m: Mem, m': Mem, k: Ctx, was: RbNode?, now: RbNode?, top: RbNode?, top': RbNode?)
    requires CtxAt(m, k, was, top) && CtxDistinct(k)
    requires Relinked(m, m', k, now, top, top')
    requires forall x :: x in CtxNodes(k) && x != Above(k) ==> x in m' && (x in m ==> m'[x] == m[x])
    ensures CtxAt(m', k, now, top')
  {
    match k
    case Top =>
    case InLeft(_, x, r, up) =>
      TreeFrame(m, m', r, m[x].right, x);
      CtxFrame(m, m', up, x, top);
    case InRight(_, l, x, up) =>
      TreeFrame(m, m', l, m[x].left, x);
      CtxFrame(m, m', up, x, top);
  }

  // ---------- mirror images ----------

  ghost function MirrorTree(t: Tree): Tree {
    match t
    case Leaf => Leaf
    case Node(c, l, x, r) => Node(c, MirrorTree(r), x, MirrorTree(l))
  }

  ghost function MirrorCtx(k: Ctx): Ctx {
    match k
    case Top => Top
    case InLeft(c, x, r, up) => InRight(c, MirrorTree(r), x, MirrorCtx(up))
    case InRight(c, l, x, up) => InLeft(c, x, MirrorTree(l), MirrorCtx(up))
  }

  ghost function MirrorMem(m: Mem): (m': Mem)
    ensures m'.Keys == m.Keys
  {
    map x | x in m :: Cell(m[x].parent, m[x].color, m[x].right, m[x].left)
  }

  lemma {:induction false} MirrorTreeTwice(t: Tree)
    ensures MirrorTree(MirrorTree(t)) == t
    ensures Nodes(MirrorTree(t)) == Nodes(t)
    ensures Distinct(MirrorTree(t)) == Distinct(t)
  {
    match t
    case Leaf =>
    case Node(_, l, _, r) =>
      MirrorTreeTwice(l);
      MirrorTreeTwice(r);
  }

  lemma {:induction false} MirrorCtxTwice(k: Ctx)
    ensures MirrorCtx(MirrorCtx(k)) == k
    ensures CtxNodes(MirrorCtx(k)) == CtxNodes(k)
    ensures CtxDistinct(MirrorCtx(k)) == CtxDistinct(k)
    ensures Above(MirrorCtx(k)) == Above(k)
  {
    match k
    case Top =>
    case InLeft(_, _, r, up) =>
      MirrorTreeTwice(r);
      MirrorCtxTwice(up);
    case InRight(_, l, _, up) =>
      MirrorTreeTwice(l);
      MirrorCtxTwice(up);
  }

  lemma {:induction false} MirrorTreeAt(m: Mem, t: Tree, n: RbNode?, p: RbNode?)
    ensures TreeAt(MirrorMem(m), MirrorTree(t), n, p) == TreeAt(m, t, n, p)
  {
    match t
    case Leaf =>
    case Node(_, l, x, r) =>
      if x in m {
        MirrorTreeAt(m, l, m[x].left, x);
        MirrorTreeAt(m, r, m[x].right, x);
      }
  }

  lemma {:induction false} MirrorCtxAt(m: Mem, k: Ctx, n: RbNode?, top: RbNode?)
    ensures CtxAt(MirrorMem(m), MirrorCtx(k), n, top) == CtxAt(m, k, n, top)
  {
    match k
    case Top =>
    case InLeft(_, x, r, up) =>
      if x in m {
        MirrorTreeAt(m, r, m[x].right, x);
      }
      MirrorCtxTwice(up);
      MirrorCtxAt(m, up, x, top);
    case InRight(_, l, x, up) =>
      if x in m {
        MirrorTreeAt(m, l, m[x].left, x);
      }
      MirrorCtxTwice(up);
      MirrorCtxAt(m, up, x, top);
  }

  lemma MirrorFocus(m: Mem, top: RbNode?, k: Ctx, t: Tree, n: RbNode?)
    ensures Focus(MirrorMem(m), top, MirrorCtx(k), MirrorTree(t), n) == Focus(m, top, k, t, n)
  {
    MirrorTreeTwice(t);
    MirrorCtxTwice(k);
    MirrorTreeAt(m, t, n, Above(k));
    MirrorCtxAt(m, k, n, top);
  }

  // ---------- in-order sequence ----------

  ghost function InOrder(t: Tree): seq<RbNode> {
    match t
    case Leaf => []
    case Node(_, l, x, r) => InOrder(l) + [x] + InOrder(r)
  }

  /** The nodes before the hole, in order. */
  ghost function Before(k: Ctx): seq<RbNode> {
    match k
    case Top => []
    case InLeft(_, _, _, up) => Before(up)
    case InRight(_, l, x, up) => Before(up) + InOrder(l) + [x]
  }

  ghost function After(k: Ctx): seq<RbNode> {
    match k
    case Top => []
    case InLeft(_, x, r, up) => [x] + InOrder(r) + After(up)
    case InRight(_, _, _, up) => After(up)
  }

  lemma {:induction false} InOrderPlug(k: Ctx, t: Tree)
    ensures InOrder(Plug(k, t)) == Before(k) + InOrder(t) + After(k)
    decreases k
  {
    if !k.Top? {
      InOrderPlug(k.up, Wrap(k, t));
    }
  }

  lemma {:induction false} NodesPlug(k: Ctx, t: Tree)
    ensures Nodes(Plug(k, t)) == CtxNodes(k) + Nodes(t)
    decreases k
  {
    if !k.Top? {
      NodesPlug(k.up, Wrap(k, t));
    }
  }

  /** Replacing the part in the hole by one with the same in-order sequence. */
  lemma SameOrder(k: Ctx, t: Tree, u: Tree)
    requires InOrder(t) == InOrder(u)
    ensures InOrder(Plug(k, t)) == InOrder(Plug(k, u))
  {
    InOrderPlug(k, t);
    InOrderPlug(k, u);
  }
}
