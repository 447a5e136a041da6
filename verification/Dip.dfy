/** btt's tree of queued I/Os for one device, and the accounting of queue and completion traces on it. */
module Dip {
  import opened Seqs
  import opened RbShape
  import opened RbColor
  import opened RbTree
  import opened RbErase
  import opened RbSet
  import opened DipQuery

  /** What the search of rb_insert knows on its way down. */
  ghost predicate Bounds(k: Ctx, e: Ios, s: nat) {
    (forall x :: x in Before(k) ==> Start(Of(e, x)) < s) && (forall x :: x in After(k) ==> s < Start(Of(e, x)))
  }

  /** Where the search for s ends that goes on from t in k. */
  ghost function Hole(k: Ctx, t: Tree, e: Ios, s: nat): Ctx
    decreases t
  {
    match t
    case Leaf => k
    case Node(c, l, x, r) =>
      if s < Start(Of(e, x)) then Hole(InLeft(c, x, r, k), l, e, s) else Hole(InRight(c, l, x, k), r, e, s)
  }

  /** t' is t with x inserted where the search for s ends; below a black node nothing else changes. */
  ghost predicate Grown(t: Tree, t': Tree, x: RbNode, e: Ios, s: nat) {
    var k := Hole(Top, t, e, s);
    !CtxRed(k) ==> t' == Blackened(Plug(k, Node(Red, Leaf, x, Leaf)))
  }

  lemma StartsAround(a: seq<RbNode>, x: RbNode, b: seq<RbNode>, e: Ios)
    requires StartsRise(a + [x] + b, e)
    ensures forall y :: y in a ==> Start(Of(e, y)) < Start(Of(e, x))
    ensures forall y :: y in b ==> Start(Of(e, x)) < Start(Of(e, y))
  {
    hide Of, Start;
    StartsParts(a, x, b, e);
    var ns, n := a + [x] + b, |a|;
    assert ns[n] == x;
    forall y | y in b ensures Start(Of(e, x)) < Start(Of(e, y)) {
      var i :| 0 <= i < |b| && b[i] == y;
      assert ns[n + 1 + i] == y;
    }
  }

  lemma Narrow(k: Ctx, t: Tree, e: Ios, s: nat)
    requires t.Node? && StartsRise(InOrder(Plug(k, t)), e) && Bounds(k, e, s)
    ensures s < Start(Of(e, t.it)) ==> Bounds(InLeft(t.color, t.it, t.right, k), e, s)
    ensures s > Start(Of(e, t.it)) ==> Bounds(InRight(t.color, t.left, t.it, k), e, s)
  {
    hide Of, Start, StartsRise, InOrder, Plug;
    OrderAround(k, t);
    StartsAround(LeftOf(k, t), t.it, RightOf(k, t), e);
    var x, kl, kr := t.it, InLeft(t.color, t.it, t.right, k), InRight(t.color, t.left, t.it, k);
    assert forall y :: y in After(kl) <==> y == x || y in RightOf(k, t);
    assert forall y :: y in Before(kr) <==> y in LeftOf(k, t) || y == x;
    hide Before, After, LeftOf, RightOf;
    assert Before(kl) == Before(k) && After(kr) == After(k);
  }

  /** A new node where the search ended keeps the starts rising. */
  lemma Inserted(a: seq<RbNode>, x: RbNode, b: seq<RbNode>, e: Ios, io: Io)
    requires StartsRise(a + b, e) && x !in a && x !in b
    requires forall y :: y in a ==> Start(Of(e, y)) < Start(io)
    requires forall y :: y in b ==> Start(io) < Start(Of(e, y))
    ensures StartsRise(a + [x] + b, e[x := io])
  {
    var ns, e' := a + [x] + b, e[x := io];
    forall i, j | 0 <= i < j < |ns| ensures Start(Of(e', ns[i])) < Start(Of(e', ns[j])) {
      assert i < |a| ==> ns[i] == (a + b)[i] && ns[i] in a;
      assert j > |a| ==> ns[j] == (a + b)[j - 1] && ns[j] in b;
      assert i > |a| ==> ns[i] == (a + b)[i - 1] && ns[i] in b;
      assert j < |a| ==> ns[j] == (a + b)[j] && ns[j] in a;
    }
  }

  lemma Removed(a: seq<RbNode>, x: RbNode, b: seq<RbNode>, e: Ios)
    requires StartsRise(a + [x] + b, e)
    ensures StartsRise(a + b, e)
  {
    var ns, ms, n := a + [x] + b, a + b, |a|;
    forall i, j | 0 <= i < j < |ms| ensures Start(Of(e, ms[i])) < Start(Of(e, ms[j])) {
      assert ms[i] == ns[if i < n then i else i + 1] && ms[j] == ns[if j < n then j else j + 1];
    }
  }

  lemma NoneThere(k: Ctx, e: Ios, s: nat)
    requires Bounds(k, e, s) && CtxNodes(k) <= e.Keys
    ensures forall x :: x in CtxNodes(k) ==> Start(e[x]) != s
  {
    forall x | x in CtxNodes(k) ensures Start(e[x]) != s {
      CtxOrderNode(k, x);
    }
  }

  /** None of the I/Os around the position has the sector. */
  ghost predicate Excluded(k: Ctx, e: Ios, sec: nat) {
    forall x :: x in CtxNodes(k) ==> !(Start(Of(e, x)) <= sec < End(Of(e, x)))
  }

  lemma ExcludeMore(k: Ctx, t: Tree, e: Ios, sec: nat)
    requires t.Node? && StartsRise(InOrder(Plug(k, t)), e)
    requires EndsRise(InOrder(Plug(k, t)), e) && Excluded(k, e, sec)
    ensures sec < Start(Of(e, t.it)) ==> Excluded(InLeft(t.color, t.it, t.right, k), e, sec)
    ensures sec >= End(Of(e, t.it)) ==> Excluded(InRight(t.color, t.left, t.it, k), e, sec)
  {
    hide Of, Start, End, StartsRise, EndsRise;
    OrderAround(k, t);
    StartsAround(LeftOf(k, t), t.it, RightOf(k, t), e);
    EndsParts(LeftOf(k, t), t.it, RightOf(k, t), e);
    forall y | y in Nodes(t.left) ensures End(Of(e, y)) < End(Of(e, t.it)) {
      InOrderNode(t.left, y);
    }
    forall y | y in Nodes(t.right) ensures Start(Of(e, t.it)) < Start(Of(e, y)) {
      InOrderNode(t.right, y);
    }
  }

  /** A new node where the search for its start ended. */
  lemma NewAt(k: Ctx, t: Tree, node: RbNode, e: Ios, io: Io)
    requires Plug(k, Leaf) == t && Bounds(k, e, Start(io)) && StartsRise(InOrder(t), e)
    requires node !in Nodes(t) && Nodes(t) <= e.Keys
    ensures StartsRise(Before(k) + [node] + After(k), e[node := io])
    ensures forall x :: x in Nodes(t) ==> Start(e[x]) != Start(io)
  {
    InOrderPlug(k, Leaf);
    NodesPlug(k, Leaf);
    CtxOrderNode(k, node);
    assert Before(k) + [] + After(k) == Before(k) + After(k);
    NoneThere(k, e, Start(io));
    Inserted(Before(k), node, After(k), e, io);
  }

  class IoTree {
    const root: RbRoot
    var ios: Ios

    ghost predicate Valid()
      reads this, root, root.mem.Keys
    {
      RbSet.Valid(root) && root.mem.Keys <= ios.Keys && StartsRise(InOrder(root.tree), ios)
    }

    /** The I/Os linked into the tree. */
    ghost function Linked(): set<RbNode>
      reads this, root
    {
      Nodes(root.tree)
    }

    constructor ()
      ensures Valid() && root.tree == Leaf && ios == map[] && Linked() == {} && fresh(root) && fresh(root.mem.Keys)
    {
      root := new RbRoot();
      ios := map[];
    }

    /** The search loop of rb_insert. */
    method Search(s: nat) returns (p: RbNode?, parent: RbNode?, link: Link, ghost k: Ctx, ghost t: Tree)
      requires Valid()
      ensures At(root, k, t, p) && Plug(k, t) == root.tree && parent == Above(k) && link == LinkOf(k)
      ensures if p != null then p in Linked() && Start(ios[p]) == s
              else t.Leaf? && Bounds(k, ios, s) && k == Hole(Top, root.tree, ios, s)
    {
      p, parent, link := root.node, null, RootLink;
      k, t := Top, root.tree;
      while p != null && Start(ios[p]) != s
        invariant At(root, k, t, p) && Plug(k, t) == root.tree && parent == Above(k) && link == LinkOf(k)
        invariant Bounds(k, ios, s) && (p != null ==> t.Node? && p == t.it && p in root.mem)
        invariant Hole(k, t, ios, s) == Hole(Top, root.tree, ios, s)
        decreases t
      {
        Narrow(k, t, ios, s);
        Down(root.mem, root.node, k, t, p);
        parent := p;
        if s < Start(ios[p]) {
          link := LeftLink;
          k, t, p := InLeft(t.color, p, t.right, k), t.left, p.left;
        } else {
          link := RightLink;
          k, t, p := InRight(t.color, t.left, p, k), t.right, p.right;
        }
        NodesPlug(k, t);
      }
    }

    /** rb_insert: refused if an I/O with the same start is there. */
    method Insert(node: RbNode, io: Io) returns (linked: bool)
      requires Valid() && node !in root.mem
      modifies this, root, root.mem.Keys, node
      ensures Valid() && root.mem.Keys == Linked()
      ensures linked <==> forall x :: x in old(Linked()) ==> Start(old(ios)[x]) != Start(io)
      ensures Linked() == if linked then old(Linked()) + {node} else old(Linked())
      ensures ios == if linked then old(ios)[node := io] else old(ios)
      ensures linked ==> Grown(old(root.tree), root.tree, node, old(ios), Start(io))
    {
      hide Start, StartsRise, RbSet.Valid, Focus, Bounds, Hole, Before, After, CtxNodes;
      KeysOf(root);
      ghost var was, e := root.tree, ios;
      var p, parent, link;
      ghost var k, t;
      p, parent, link, k, t := Search(Start(io));
      if p != null {
        return false;
      }
      NewAt(k, was, node, ios, io);
      ios := ios[node := io];
      RbSet.InsertAt(node, parent, link, root, k);
      KeysOf(root);
      return true;
    }

    /** rb_find_sec */
    method FindSec(sec: nat) returns (p: RbNode?)
      requires Valid()
      ensures p != null ==> p in Linked() && HasSector(ios[p], sec)
      ensures p == null && EndsRise(InOrder(root.tree), ios) ==>
        forall x :: x in Linked() ==> !HasSector(ios[x], sec)
    {
      forall io ensures HasSector(io, sec) <==> Start(io) <= sec < End(io) {
        SectorIff(io, sec);
      }
      hide HasSector;
      p := root.node;
      ghost var k, t := Top, root.tree;
      while p != null
        invariant At(root, k, t, p) && Plug(k, t) == root.tree && (p != null ==> t.Node? && p == t.it && p in root.mem)
        invariant EndsRise(InOrder(root.tree), ios) ==> Excluded(k, ios, sec)
        decreases t
      {
        if EndsRise(InOrder(root.tree), ios) {
          ExcludeMore(k, t, ios, sec);
        }
        Down(root.mem, root.node, k, t, p);
        if sec < Start(ios[p]) {
          k, t, p := InLeft(t.color, p, t.right, k), t.left, p.left;
        } else if sec >= End(ios[p]) {
          k, t, p := InRight(t.color, t.left, p, k), t.right, p.right;
        } else {
          return;
        }
        NodesPlug(k, t);
      }
      NodesPlug(k, t);
    }

    /** rb_foreach, from node n down: the nodes it lists, in order. */
    method Foreach(n: RbNode?, q: Io, ghost k: Ctx, ghost t: Tree) returns (head: seq<RbNode>)
      requires Valid() && At(root, k, t, n) && Nodes(t) <= root.mem.Keys
      ensures head == Walk(t, ios, q)
      decreases t
    {
      hide Walk, Within, Start, End, Of, StartsRise;
      head := [];
      if n == null {
        WalkLeaf(t, ios, q);
      } else {
        OfIn(ios, n);
        Down(root.mem, root.node, k, t, n);
        ChildrenAt(root.mem, t, n, Above(k));
        WalkNode(t, ios, q);
        var cur := ios[n];
        if Within(cur, q) {
          head := [n];
        }
        if Start(q) < Start(cur) {
          var l := Foreach(n.left, q, InLeft(t.color, n, t.right, k), t.left);
          head := head + l;
        }
        if End(cur) < End(q) {
          var r := Foreach(n.right, q, InRight(t.color, t.left, n, k), t.right);
          head := head + r;
        }
      }
    }

    /** dip_rb_rem */
    method Remove(node: RbNode)
      requires Valid() && node in Linked()
      modifies root, root.mem.Keys
      ensures Valid() && root.mem.Keys == old(root.mem.Keys) - {node} == Linked()
    {
      ghost var k, u := Locate(root.mem, root.node, Top, root.tree, root.node, node);
      OrderAround(k, u);
      Removed(LeftOf(k, u), node, RightOf(k, u), ios);
      RbSet.Erase(node, root);
    }
  }

  lemma CountedOnce(s: seq<RbNode>)
    requires forall x :: multiset(s)[x] <= 1
    ensures NoDup(s)
  {
    forall i, j | 0 <= i < j < |s| ensures s[i] != s[j] {
      var a, b := s[..j], s[j..];
      assert s == a + b && a[i] in a && b[0] in b;
      assert multiset(s)[s[j]] == multiset(a)[s[j]] + multiset(b)[s[j]];
      assert multiset(b)[s[j]] >= 1;
      assert multiset(a)[s[j]] == 0;
      assert s[j] !in a;
    }
  }

  ghost function Members(s: seq<RbNode>): set<RbNode> {
    set x | x in s
  }

  lemma NewOne(s: set<RbNode>, x: RbNode)
    ensures x !in s ==> |s + {x}| == |s| + 1
  {
  }

  lemma NoMembers()
    ensures Members([]) == {}
  {
  }

  lemma OneMore(s: seq<RbNode>, i: nat)
    requires i < |s| && NoDup(s)
    ensures Members(s[..i + 1]) == Members(s[..i]) + {s[i]} && s[i] !in Members(s[..i])
  {
    assert s[..i + 1] == s[..i] + [s[i]];
  }

  /** What the walk lists is linked, and listed once. */
  lemma WalkList(t: Tree, e: Ios, q: Io)
    requires Distinct(t)
    ensures NoDup(Walk(t, e, q)) && forall x :: x in Walk(t, e, q) ==> x in Nodes(t)
  {
    WalkNodes(t, e, q);
    forall x ensures multiset(Walk(t, e, q))[x] <= 1 {
      WalkOnce(t, e, q, x);
    }
    CountedOnce(Walk(t, e, q));
  }

  /** For disjoint queued I/Os the walk lists exactly those inside the range. */
  lemma ContainedReleased(t: Tree, e: Ios, q: Io)
    requires Nodes(t) <= e.Keys
    ensures Disjoint(InOrder(t), e) ==> forall x :: x in Walk(t, e, q) <==> x in Nodes(t) && Within(e[x], q)
  {
    if Disjoint(InOrder(t), e) {
      DisjointRises(InOrder(t), e);
      EndsRiseCovers(t, e);
      NothingMissed(t, e, q);
      WalkNodes(t, e, q);
    }
  }

  /** For queued I/Os of whole sectors without a common byte these are the ones whose bytes are all in the range. */
  lemma InsideReleased(t: Tree, e: Ios, q: Io)
    requires StartsRise(InOrder(t), e) && Nodes(t) <= e.Keys && AllApart(t, e) && WholeSectors(q)
    ensures forall x :: x in Walk(t, e, q) <==> x in Nodes(t) && Inside(e[x], q)
  {
    hide StartsRise, Disjoint, Walk, Apart;
    ApartDisjoint(t, e);
    ContainedReleased(t, e, q);
    forall x | x in Nodes(t) ensures Inside(e[x], q) <==> Within(e[x], q) {
      InsideIff(e[x], q);
    }
    hide AllApart, Inside, Within, WholeSectors;
  }

  /** The queue side of struct d_info: its tree of queued I/Os, n_qs, and how often q2c has been updated. */
  class Device {
    const qs: IoTree
    var nQs: nat
    var q2c: nat

    /** Every accepted queue trace is still linked or has been released and counted by a completion. */
    ghost predicate Valid()
      reads this, qs, qs.root, qs.root.mem.Keys
    {
      qs.Valid() && qs.root.mem.Keys == qs.Linked() && nQs == |qs.Linked()| + q2c
    }

    constructor ()
      ensures Valid() && fresh(qs) && fresh(qs.root) && fresh(qs.root.mem.Keys) && nQs == q2c == 0
      ensures qs.root.tree == Leaf && qs.ios == map[] && qs.Linked() == {}
    {
      qs := new IoTree();
      nQs, q2c := 0, 0;
    }

    /** trace_queue; the node is that of the new struct io. */
    method TraceQueue(node: RbNode, io: Io) returns (accepted: bool)
      requires Valid() && node !in qs.Linked()
      modifies this, qs, qs.root, qs.root.mem.Keys, node
      ensures Valid() && q2c == old(q2c)
      ensures accepted <==> io.bytes > 0 && forall x :: x in old(qs.Linked()) ==> Start(old(qs.ios)[x]) != Start(io)
      ensures nQs == old(nQs) + if accepted then 1 else 0
      ensures qs.Linked() == if accepted then old(qs.Linked()) + {node} else old(qs.Linked())
      ensures qs.ios == if accepted then old(qs.ios)[node := io] else old(qs.ios)
      ensures accepted ==> Grown(old(qs.root.tree), qs.root.tree, node, old(qs.ios), Start(io))
    {
      hide IoTree.Valid, IoTree.Linked, Start, Grown;
      NewOne(qs.Linked(), node);
      if io.bytes == 0 {
        return false;
      }
      accepted := qs.Insert(node, io);
      if accepted {
        nQs := nQs + 1;
      }
    }

    /** update_q2c and io_release of one queued I/O. */
    method Release(x: RbNode)
      requires Valid() && x in qs.Linked()
      modifies this`q2c, qs.root, qs.root.mem.Keys
      ensures Valid() && q2c == old(q2c) + 1 && qs.Linked() == old(qs.Linked()) - {x}
      ensures qs.root.mem.Keys <= old(qs.root.mem.Keys)
    {
      hide IoTree.Valid, IoTree.Linked;
      q2c := q2c + 1;
      qs.Remove(x);
    }

    /** The list of handle_complete, I/O by I/O. */
    method ReleaseAll(list: seq<RbNode>)
      requires Valid() && NoDup(list) && forall x :: x in list ==> x in qs.Linked()
      modifies this`q2c, qs.root, qs.root.mem.Keys
      ensures Valid() && q2c == old(q2c) + |list|
      ensures qs.Linked() == old(qs.Linked()) - Members(list)
    {
      hide IoTree.Valid, IoTree.Linked, Members, NoDup, Device.Valid;
      NoMembers();
      var i := 0;
      while i < |list|
        invariant i <= |list| && Valid() && q2c == old(q2c) + i
        invariant qs.Linked() == old(qs.Linked()) - Members(list[..i])
        invariant qs.root.mem.Keys <= old(qs.root.mem.Keys)
      {
        OneMore(list, i);
        Release(list[i]);
        i := i + 1;
      }
      assert list[..i] == list;
    }

    /** trace_complete: the queued I/Os inside the completed range are counted and released. */
    method TraceComplete(c: Io) returns (released: seq<RbNode>)
      requires Valid()
      modifies this`q2c, qs.root, qs.root.mem.Keys
      ensures Valid() && q2c == old(q2c) + |released|
      ensures released == if c.bytes == 0 then [] else old(Walk(qs.root.tree, qs.ios, c))
      ensures qs.Linked() == old(qs.Linked()) - Members(released)
      ensures c.bytes > 0 && old(Disjoint(InOrder(qs.root.tree), qs.ios)) ==>
        forall x :: x in released <==> x in old(qs.Linked()) && Within(old(qs.ios)[x], c)
      ensures WholeSectors(c) && old(AllApart(qs.root.tree, qs.ios)) ==>
        forall x :: x in released <==> x in old(qs.Linked()) && Inside(old(qs.ios)[x], c)
    {
      if WholeSectors(c) && AllApart(qs.root.tree, qs.ios) {
        InsideReleased(qs.root.tree, qs.ios, c);
      }
      hide Walk, Within, Disjoint, Inside, AllApart;
      released := [];
      if c.bytes == 0 {
        return;
      }
      released := qs.Foreach(qs.root.node, c, Top, qs.root.tree);
      WalkList(qs.root.tree, qs.ios, c);
      ContainedReleased(qs.root.tree, qs.ios, c);
      ReleaseAll(released);
    }
  }

  // ---------- nested I/Os ----------

  /** A tree of one I/O, and a later start: the new I/O goes to its right. */
  lemma GrownRight(x: RbNode, t': Tree, y: RbNode, e: Ios, s: nat)
    requires Grown(Node(Black, Leaf, x, Leaf), t', y, e, s) && Start(Of(e, x)) < s
    ensures t' == Node(Black, Leaf, x, Node(Red, Leaf, y, Leaf))
  {
    var k, u := InRight(Black, Leaf, x, Top), Node(Red, Leaf, y, Leaf);
    assert Hole(Top, Node(Black, Leaf, x, Leaf), e, s) == Hole(k, Leaf, e, s) == k;
    assert Plug(k, u) == Plug(Top, Wrap(k, u)) == Node(Black, Leaf, x, u);
  }

  lemma GrownFirst(t': Tree, x: RbNode, e: Ios, s: nat)
    requires Grown(Leaf, t', x, e, s)
    ensures t' == Node(Black, Leaf, x, Leaf)
  {
  }

  /** In this tree the walk for the range of the inner I/O does not find it. */
  lemma InnerMissed(x: RbNode, y: RbNode, e: Ios)
    requires Of(e, x) == Io(0, 51200) && Of(e, y) == Io(10, 512)
    ensures var t := Node(Black, Leaf, x, Node(Red, Leaf, y, Leaf));
      !NoneCovered(t, e) && Walk(t, e, Io(10, 512)) == [] && FullWalk(t, e, Io(10, 512)) == [y]
  {
    var q, t := Io(10, 512), Node(Black, Leaf, x, Node(Red, Leaf, y, Leaf));
    assert Start(Of(e, x)) == 0 && End(Of(e, x)) == 100;
    assert Start(q) == Start(Of(e, y)) == 10 && End(q) == End(Of(e, y)) == 11;
    hide Of, Start, End;
    assert y in Nodes(t.right);
    assert NoneCovered(t, e) ==> End(Of(e, x)) < End(Of(e, y));
    WalkNode(t, e, q);
    WalkNode(t.right, e, q);
  }

  /** Two queue traces, the second I/O inside the first one. */
  method QueueNested() returns (d: Device, x: RbNode, y: RbNode)
    ensures fresh(d) && fresh(d.qs.root) && fresh(d.qs.root.mem.Keys) && d.Valid() && d.nQs == 2 && d.q2c == 0
    ensures d.qs.root.tree == Node(Black, Leaf, x, Node(Red, Leaf, y, Leaf))
    ensures d.qs.Linked() == {x, y} && x != y && d.qs.ios == map[x := Io(0, 51200), y := Io(10, 512)]
  {
    hide RbSet.Valid, IoTree.Valid, IoTree.Linked, Grown;
    d := new Device();
    x := new RbNode();
    y := new RbNode();
    var accepted := d.TraceQueue(x, Io(0, 51200));
    GrownFirst(d.qs.root.tree, x, map[], 0);
    accepted := d.TraceQueue(y, Io(10, 512));
    GrownRight(x, d.qs.root.tree, y, map[x := Io(0, 51200)], 10);
  }

  /** The completion of the inner one does not release it. */
  method NestedMissed() returns (d: Device, y: RbNode, released: seq<RbNode>)
    ensures fresh(d) && d.Valid() && y in d.qs.Linked() && d.qs.ios[y] == Io(10, 512)
    ensures released == [] && d.nQs == 2 && d.q2c == 0
  {
    hide Walk, RbSet.Valid, IoTree.Valid, IoTree.Linked, Disjoint, Members, Within, NoneCovered, FullWalk;
    var x;
    d, x, y := QueueNested();
    InnerMissed(x, y, d.qs.ios);
    NoMembers();
    released := d.TraceComplete(Io(10, 512));
  }
}
