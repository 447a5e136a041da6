/** btt's p_live: a set of live intervals kept in a red-black tree. */
module PLive {
  import opened RbShape
  import opened RbTree
  import opened RbErase
  import opened RbSet
  import opened Words
  import opened Live

  /** The interval a node belongs to: rb_entry, with the containing records as a map. */
  type Entries = map<RbNode, Span>

  ghost function SpansOf(ns: seq<RbNode>, e: Entries): (s: seq<Span>)
    ensures |s| == |ns|
    ensures forall i :: 0 <= i < |ns| && ns[i] in e ==> s[i] == e[ns[i]]
  {
    seq(|ns|, i requires 0 <= i < |ns| => if ns[i] in e then e[ns[i]] else Span(0, 0))
  }

  lemma SpansSplit(a: seq<RbNode>, b: seq<RbNode>, e: Entries)
    ensures SpansOf(a + b, e) == SpansOf(a, e) + SpansOf(b, e)
  {
  }

  lemma SpansSame(ns: seq<RbNode>, e: Entries, e': Entries)
    requires forall x :: x in ns ==> x in e && x in e' && e[x] == e'[x]
    ensures SpansOf(ns, e) == SpansOf(ns, e')
  {
  }

  /** The intervals before and after one of the nodes. */
  lemma Around(a: seq<RbNode>, x: RbNode, b: seq<RbNode>, e: Entries)
    requires Separated(SpansOf(a + [x] + b, e)) && forall y :: y in a + [x] + b ==> y in e
    ensures x in e && e[x].dt <= e[x].ct
    ensures forall y :: y in a ==> y in e && e[y].ct < e[x].dt
    ensures forall y :: y in b ==> y in e && e[x].ct < e[y].dt
  {
    var ns := a + [x] + b;
    var s := SpansOf(ns, e);
    var n := |a|;
    assert ns[n] == x && s[n] == e[x];
    forall y | y in a ensures y in e && e[y].ct < e[x].dt {
      var i :| 0 <= i < n && a[i] == y;
      assert ns[i] == y && s[i].ct < s[n].dt;
    }
    forall y | y in b ensures y in e && e[x].ct < e[y].dt {
      var i :| 0 <= i < |b| && b[i] == y;
      assert ns[n + 1 + i] == y && s[n].ct < s[n + 1 + i].dt;
    }
  }

  lemma SpansCut(a: seq<RbNode>, x: RbNode, b: seq<RbNode>, e: Entries)
    ensures var s, n := SpansOf(a + [x] + b, e), |a|;
      s[..n] + s[n + 1..] == SpansOf(a + b, e)
  {
    SpansSplit(a + [x], b, e);
    SpansSplit(a, [x], e);
    SpansSplit(a, b, e);
  }

  /** What is left of a separated list is separated. */
  lemma StillSeparated(s: seq<Span>, n: nat)
    requires Separated(s) && n < |s|
    ensures Separated(s[..n] + s[n + 1..])
  {
  }

  lemma AbsorbNode(a: seq<RbNode>, x: RbNode, b: seq<RbNode>, e: Entries, q: Span)
    requires Separated(SpansOf(a + [x] + b, e)) && x in e && q.dt <= q.ct && Inside(e[x], q)
    ensures Separated(SpansOf(a + b, e))
    ensures Added(SpansOf(a + b, e), Hull(e[x], q)) == Added(SpansOf(a + [x] + b, e), q)
  {
    hide Separated, Inside, Added;
    var s, n := SpansOf(a + [x] + b, e), |a|;
    assert (a + [x] + b)[n] == x;
    SpansCut(a, x, b, e);
    Absorb(s, n, q);
    StillSeparated(s, n);
  }

  lemma AddNode(a: seq<RbNode>, x: RbNode, b: seq<RbNode>, e: Entries, e': Entries)
    requires Separated(SpansOf(a + b, e)) && x !in a && x !in b && forall y :: y in a + b ==> y in e
    requires x in e' && e' == e[x := e'[x]] && e'[x].dt <= e'[x].ct
    requires forall y :: y in a ==> e[y].ct < e'[x].dt
    requires forall y :: y in b ==> e'[x].ct < e[y].dt
    ensures SpansOf(a + [x] + b, e') == Added(SpansOf(a + b, e), e'[x])
  {
    SpansSplit(a, b, e);
    SpansSame(a, e, e');
    SpansSame(b, e, e');
    SpansSplit(a + [x], b, e');
    SpansSplit(a, [x], e');
    assert SpansOf([x], e') == [e'[x]];
    var s := SpansOf(a + b, e);
    forall i | 0 <= i < |b| ensures SpansOf(b, e)[i].dt <= SpansOf(b, e)[i].ct {
      assert s[|a| + i] == SpansOf(b, e)[i];
    }
    AddedBetween(SpansOf(a, e), e'[x], SpansOf(b, e));
  }

  /** What the search knows on its way down: all before the position ends before q, all after begins after it. */
  ghost predicate Bounds(k: Ctx, e: Entries, q: Span) {
    (forall x :: x in Before(k) ==> x in e && e[x].ct < q.dt) &&
    (forall x :: x in After(k) ==> x in e && q.ct < e[x].dt)
  }

  lemma BoundsTop(e: Entries, q: Span)
    ensures Bounds(Top, e, q)
  {
  }

  lemma Narrow(k: Ctx, t: Tree, e: Entries, q: Span)
    requires t.Node? && Separated(SpansOf(InOrder(Plug(k, t)), e)) && Nodes(Plug(k, t)) <= e.Keys
    requires Bounds(k, e, q) && t.it in e && !Inside(e[t.it], q) && q.dt <= q.ct
    ensures q.ct < e[t.it].dt ==> Bounds(InLeft(t.color, t.it, t.right, k), e, q)
    ensures q.ct >= e[t.it].dt ==> Bounds(InRight(t.color, t.left, t.it, k), e, q)
  {
    OrderAround(k, t);
    forall y | y in InOrder(Plug(k, t)) ensures y in e {
      InOrderNode(Plug(k, t), y);
    }
    Around(LeftOf(k, t), t.it, RightOf(k, t), e);
  }

  /** Erasing a node that q meets and adding the hull. */
  lemma Absorbed(k: Ctx, t: Tree, ns: seq<RbNode>, e: Entries, q: Span)
    requires t.Node? && Distinct(t) && Nodes(t) !! CtxNodes(k) && ns == InOrder(Plug(k, t))
    requires Separated(SpansOf(ns, e)) && t.it in e && q.dt <= q.ct && Inside(e[t.it], q)
    ensures Separated(SpansOf(Without(ns, t.it), e)) && |Without(ns, t.it)| < |ns|
    ensures Added(SpansOf(Without(ns, t.it), e), Hull(e[t.it], q)) == Added(SpansOf(ns, e), q)
  {
    OrderAround(k, t);
    AbsorbNode(LeftOf(k, t), t.it, RightOf(k, t), e, q);
  }

  /** Inserting a new node where the search ended. */
  lemma Inserted(k: Ctx, node: RbNode, e: Entries, q: Span)
    requires Separated(SpansOf(InOrder(Plug(k, Leaf)), e)) && Bounds(k, e, q) && q.dt <= q.ct
    requires node !in CtxNodes(k)
    ensures SpansOf(Before(k) + [node] + After(k), e[node := q]) == Added(SpansOf(InOrder(Plug(k, Leaf)), e), q)
    ensures Separated(SpansOf(Before(k) + [node] + After(k), e[node := q]))
  {
    InOrderPlug(k, Leaf);
    var a, b := Before(k), After(k);
    assert a + [] + b == a + b;
    CtxOrderNode(k, node);
    AddNode(a, node, b, e, e[node := q]);
    AddedSeparated(SpansOf(a + b, e), q);
  }

  /** The live intervals of one device. */
  class LiveSet {
    const root: RbRoot
    var entry: Entries

    ghost predicate Valid()
      reads this, root, root.mem.Keys
    {
      RbSet.Valid(root) && root.mem.Keys <= entry.Keys && Separated(Spans())
    }

    /** The intervals in the order of the tree. */
    ghost function Spans(): seq<Span>
      reads this, root
    {
      SpansOf(InOrder(root.tree), entry)
    }

    constructor ()
      ensures Valid() && Spans() == [] && fresh(root) && fresh(root.mem.Keys)
    {
      root := new RbRoot();
      entry := map[];
    }

    /** The search loop of __p_live_add: down to a node q meets, or to the empty place where q belongs. */
    method Search(q: Span) returns (p: RbNode?, parent: RbNode?, link: Link, ghost k: Ctx, ghost t: Tree)
      requires Valid() && q.dt <= q.ct
      ensures At(root, k, t, p) && Plug(k, t) == root.tree && parent == Above(k) && link == LinkOf(k)
      ensures if p != null then p in root.mem && Inside(entry[p], q) else t.Leaf? && Bounds(k, entry, q)
    {
      hide Separated, SpansOf, Bounds;
      BoundsTop(entry, q);
      p, parent, link := root.node, null, RootLink;
      k, t := Top, root.tree;
      while p != null && !Inside(entry[p], q)
        invariant At(root, k, t, p) && Plug(k, t) == root.tree && parent == Above(k) && link == LinkOf(k)
        invariant Bounds(k, entry, q) && (p != null ==> t.Node? && p == t.it && p in root.mem)
        decreases t
      {
        Narrow(k, t, entry, q);
        Down(root.mem, root.node, k, t, p);
        parent := p;
        if q.ct < entry[p].dt {
          link := LeftLink;
          k, t, p := InLeft(t.color, p, t.right, k), t.left, p.left;
        } else {
          link := RightLink;
          k, t, p := InRight(t.color, t.left, p, k), t.right, p.right;
        }
        NodesPlug(k, t);
      }
    }

    /** The end of __p_live_add: a new record where the search ended. */
    method Place(q: Span, parent: RbNode?, link: Link, ghost k: Ctx)
      requires Valid() && q.dt <= q.ct && At(root, k, Leaf, null) && Plug(k, Leaf) == root.tree
      requires parent == Above(k) && link == LinkOf(k) && Bounds(k, entry, q)
      modifies this, root, root.mem.Keys
      ensures Valid() && forall x :: x in root.mem ==> x in old(root.mem) || fresh(x)
      ensures Spans() == Added(old(Spans()), q)
    {
      hide RbSet.Valid, Focus, Separated, Bounds, SpansOf, Added;
      KeysOf(root);
      var node := new RbNode();
      NodesPlug(k, Leaf);
      Inserted(k, node, entry, q);
      entry := entry[node := q];
      RbSet.InsertAt(node, parent, link, root, k);
    }

    /** rb_erase of a record that q meets: adding the hull later comes to adding q now. */
    method TakeOut(p: RbNode, q: Span, ghost k: Ctx, ghost t: Tree)
      requires Valid() && q.dt <= q.ct && At(root, k, t, p) && Plug(k, t) == root.tree
      requires p in root.mem && Inside(entry[p], q)
      modifies root, root.mem.Keys
      ensures Valid() && root.mem.Keys == old(root.mem.Keys) - {p} && |root.mem| < old(|root.mem|)
      ensures Added(Spans(), Hull(entry[p], q)) == Added(old(Spans()), q)
    {
      ghost var ns := InOrder(root.tree);
      assert t.Node? && t.it == p;
      Absorbed(k, t, ns, entry, q);
      RbSet.Erase(p, root);
    }

    /** A record that q meets gives way to one that reaches as far as both. */
    method Merge(p: RbNode, q: Span, ghost k: Ctx, ghost t: Tree)
      requires Valid() && q.dt <= q.ct && At(root, k, t, p) && Plug(k, t) == root.tree
      requires p in root.mem && Inside(entry[p], q)
      modifies this, root, root.mem.Keys
      ensures Valid() && forall x :: x in root.mem ==> x in old(root.mem) || fresh(x)
      ensures Spans() == Added(old(Spans()), q)
      decreases |root.mem|, 0
    {
      hide RbSet.Valid, Separated, SpansOf, Added, Inside;
      var plp := entry[p];
      TakeOut(p, q, k, t);
      Add(Min(plp.dt, q.dt), Max(plp.ct, q.ct));
    }

    /** __p_live_add */
    method Add(dt: int, ct: int)
      requires Valid() && dt <= ct
      modifies this, root, root.mem.Keys
      ensures Valid() && forall x :: x in root.mem ==> x in old(root.mem) || fresh(x)
      ensures Spans() == Added(old(Spans()), Span(dt, ct))
      decreases |root.mem|, 1
    {
      var q := Span(dt, ct);
      var p, parent, link;
      ghost var k, t;
      p, parent, link, k, t := Search(q);
      if p != null {
        Merge(p, q, k, t);
      } else {
        Place(q, parent, link, k);
      }
    }

    /** p_live_visit: counts the intervals below n and adds up their lengths. */
    method Visit(n: RbNode, nlives0: nat, total0: int, ghost k: Ctx, ghost t: Tree) returns (nlives: nat, total: int)
      requires Valid() && At(root, k, t, n) && Nodes(t) <= root.mem.Keys
      ensures nlives == nlives0 + |InOrder(t)|
      ensures total == total0 + Total(SpansOf(InOrder(t), entry))
      decreases t
    {
      nlives, total := nlives0, total0;
      Down(root.mem, root.node, k, t, n);
      ChildrenAt(root.mem, t, n, Above(k));
      SpansSplit(InOrder(t.left) + [n], InOrder(t.right), entry);
      SpansSplit(InOrder(t.left), [n], entry);
      TotalSplit(SpansOf(InOrder(t.left), entry), SpansOf([n], entry));
      TotalSplit(SpansOf(InOrder(t.left) + [n], entry), SpansOf(InOrder(t.right), entry));
      if n.left != null {
        nlives, total := Visit(n.left, nlives, total, InLeft(t.color, n, t.right, k), t.left);
      }
      nlives := nlives + 1;
      total := total + (entry[n].ct - entry[n].dt);
      if n.right != null {
        nlives, total := Visit(n.right, nlives, total, InRight(t.color, t.left, n, k), t.right);
      }
    }

    /** The sums p_live_get starts from. */
    method Sums() returns (nlives: nat, total: int)
      requires Valid()
      ensures nlives == |Spans()| && total == Total(Spans())
    {
      nlives, total := 0, 0;
      if root.node != null {
        nlives, total := Visit(root.node, 0, 0, Top, root.tree);
      }
    }
  }
}
