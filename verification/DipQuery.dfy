/** btt's walk over the queued I/Os of a device: which subtrees it may leave out. */
module DipQuery {
  import opened RbShape
  import opened RbSet

  /** Where an I/O starts and how many bytes it has. */
  datatype Io = Io(sector: nat, bytes: nat)

  /** The I/O a node belongs to: rb_entry, with the containing records as a map. */
  type Ios = map<RbNode, Io>

  /** BIT_START */
  function Start(io: Io): nat { io.sector }

  /** BIT_END */
  function End(io: Io): nat { io.sector + io.bytes / 512 }

  function Of(e: Ios, x: RbNode): Io {
    if x in e then e[x] else Io(0, 0)
  }

  lemma OfIn(e: Ios, x: RbNode)
    ensures x in e ==> Of(e, x) == e[x]
  {
  }

  predicate Within(x: Io, q: Io) {
    Start(q) <= Start(x) && End(x) <= End(q)
  }

  // ---------- in bytes ----------

  /** Bytes in a sector. */
  const SECTOR := 512

  /** The first byte of an I/O on the device, and the first one after it. */
  function FirstByte(io: Io): nat { SECTOR * io.sector }

  function EndByte(io: Io): nat { SECTOR * io.sector + io.bytes }

  predicate WholeSectors(io: Io) { io.bytes % SECTOR == 0 && io.bytes > 0 }

  /** All bytes of x are bytes of q. */
  predicate Inside(x: Io, q: Io) { FirstByte(q) <= FirstByte(x) && EndByte(x) <= EndByte(q) }

  /** x and y have no byte in common. */
  predicate Apart(x: Io, y: Io) { EndByte(x) <= FirstByte(y) || EndByte(y) <= FirstByte(x) }

  /** All bytes of the sector are bytes of the I/O. */
  predicate HasSector(io: Io, sec: nat) { FirstByte(io) <= SECTOR * sec && SECTOR * sec + SECTOR <= EndByte(io) }

  lemma SectorIff(io: Io, sec: nat)
    ensures HasSector(io, sec) <==> Start(io) <= sec < End(io)
  {
  }

  lemma InsideIff(x: Io, q: Io)
    requires WholeSectors(x) && WholeSectors(q)
    ensures Inside(x, q) <==> Within(x, q)
  {
  }

  lemma ApartInOrder(x: Io, y: Io)
    requires WholeSectors(x) && WholeSectors(y) && Apart(x, y) && Start(x) < Start(y)
    ensures x.bytes >= 512 && End(x) <= Start(y)
  {
  }

  // ---------- the walk ----------

  /** rb_foreach */
  ghost function Walk(t: Tree, e: Ios, q: Io): seq<RbNode> {
    match t
    case Leaf => []
    case Node(_, l, x, r) =>
      (if Within(Of(e, x), q) then [x] else [])
      + (if Start(q) < Start(Of(e, x)) then Walk(l, e, q) else [])
      + (if End(Of(e, x)) < End(q) then Walk(r, e, q) else [])
  }

  /** The same without leaving any subtree out. */
  ghost function FullWalk(t: Tree, e: Ios, q: Io): seq<RbNode> {
    match t
    case Leaf => []
    case Node(_, l, x, r) =>
      (if Within(Of(e, x), q) then [x] else []) + FullWalk(l, e, q) + FullWalk(r, e, q)
  }

  /** One level of both walks. */
  lemma WalkNode(t: Tree, e: Ios, q: Io)
    requires t.Node?
    ensures var y := Of(e, t.it);
      Walk(t, e, q) == (if Within(y, q) then [t.it] else [])
        + (if Start(q) < Start(y) then Walk(t.left, e, q) else [])
        + (if End(y) < End(q) then Walk(t.right, e, q) else [])
    ensures FullWalk(t, e, q)
      == (if Within(Of(e, t.it), q) then [t.it] else []) + FullWalk(t.left, e, q) + FullWalk(t.right, e, q)
  {
  }

  /** In tree order the starts rise. */
  ghost predicate StartsRise(ns: seq<RbNode>, e: Ios) {
    forall i, j :: 0 <= i < j < |ns| ==> Start(Of(e, ns[i])) < Start(Of(e, ns[j]))
  }

  ghost predicate EndsRise(ns: seq<RbNode>, e: Ios) {
    forall i, j :: 0 <= i < j < |ns| ==> End(Of(e, ns[i])) < End(Of(e, ns[j]))
  }

  /** In tree order each I/O is over before the next one starts, and none is shorter than a sector. */
  ghost predicate Disjoint(ns: seq<RbNode>, e: Ios) {
    && (forall i :: 0 <= i < |ns| ==> Of(e, ns[i]).bytes >= 512)
    && (forall i, j :: 0 <= i < j < |ns| ==> End(Of(e, ns[i])) <= Start(Of(e, ns[j])))
  }

  lemma DisjointRises(ns: seq<RbNode>, e: Ios)
    requires Disjoint(ns, e)
    ensures StartsRise(ns, e) && EndsRise(ns, e)
  {
    assert forall i :: 0 <= i < |ns| ==> Start(Of(e, ns[i])) < End(Of(e, ns[i]));
  }

  /** Whole sectors, no two with a byte in common. */
  ghost predicate AllApart(t: Tree, e: Ios) {
    && (forall x :: x in Nodes(t) ==> WholeSectors(Of(e, x)))
    && forall x, y :: x in Nodes(t) && y in Nodes(t) && x != y ==> Apart(Of(e, x), Of(e, y))
  }

  lemma ApartDisjoint(t: Tree, e: Ios)
    requires StartsRise(InOrder(t), e) && AllApart(t, e)
    ensures Disjoint(InOrder(t), e)
  {
    hide Of, Start, End, Apart, WholeSectors;
    var ns := InOrder(t);
    forall i | 0 <= i < |ns| ensures ns[i] in Nodes(t) && Of(e, ns[i]).bytes >= 512 {
      InOrderNode(t, ns[i]);
      WholeIsLong(Of(e, ns[i]));
    }
    forall i, j | 0 <= i < j < |ns| ensures End(Of(e, ns[i])) <= Start(Of(e, ns[j])) {
      ApartInOrder(Of(e, ns[i]), Of(e, ns[j]));
    }
  }

  lemma WholeIsLong(io: Io)
    requires WholeSectors(io)
    ensures io.bytes >= 512
  {
  }

  /** No I/O ends as late as one in the right subtree of its node, or later. */
  ghost predicate NoneCovered(t: Tree, e: Ios) {
    match t
    case Leaf => true
    case Node(_, l, x, r) =>
      NoneCovered(l, e) && NoneCovered(r, e) && forall y :: y in Nodes(r) ==> End(Of(e, x)) < End(Of(e, y))
  }

  lemma StartsParts(a: seq<RbNode>, x: RbNode, b: seq<RbNode>, e: Ios)
    requires StartsRise(a + [x] + b, e)
    ensures StartsRise(a, e) && StartsRise(b, e)
    ensures forall y :: y in a ==> Start(Of(e, y)) < Start(Of(e, x))
  {
    hide Of;
    var ns, n := a + [x] + b, |a|;
    assert ns[n] == x;
    assert forall i :: 0 <= i < n ==> a[i] == ns[i];
    assert forall i :: 0 <= i < |b| ==> b[i] == ns[n + 1 + i];
    forall i | 0 <= i < n ensures Start(Of(e, a[i])) < Start(Of(e, x)) {
      assert ns[i] == a[i];
    }
  }

  lemma EndsParts(a: seq<RbNode>, x: RbNode, b: seq<RbNode>, e: Ios)
    requires EndsRise(a + [x] + b, e)
    ensures EndsRise(a, e) && EndsRise(b, e)
    ensures forall y :: y in a ==> End(Of(e, y)) < End(Of(e, x))
    ensures forall y :: y in b ==> End(Of(e, x)) < End(Of(e, y))
  {
    hide Of, End;
    EndsOf(a, x, b, e);
    var ns, n := a + [x] + b, |a|;
    assert ns[n] == x;
    forall i | 0 <= i < n ensures End(Of(e, a[i])) < End(Of(e, x)) {
      assert ns[i] == a[i];
    }
    forall i | 0 <= i < |b| ensures End(Of(e, x)) < End(Of(e, b[i])) {
      assert ns[n + 1 + i] == b[i];
    }
  }

  lemma EndsOf(a: seq<RbNode>, x: RbNode, b: seq<RbNode>, e: Ios)
    requires EndsRise(a + [x] + b, e)
    ensures EndsRise(a, e) && EndsRise(b, e)
  {
    hide Of, End;
    var ns, n := a + [x] + b, |a|;
    assert forall i :: 0 <= i < n ==> a[i] == ns[i];
    assert forall i :: 0 <= i < |b| ==> b[i] == ns[n + 1 + i];
  }

  lemma {:induction false} EndsRiseCovers(t: Tree, e: Ios)
    requires EndsRise(InOrder(t), e)
    ensures NoneCovered(t, e)
  {
    if t.Node? {
      hide EndsRise;
      EndsParts(InOrder(t.left), t.it, InOrder(t.right), e);
      EndsRiseCovers(t.left, e);
      EndsRiseCovers(t.right, e);
      forall y | y in Nodes(t.right) ensures End(Of(e, t.it)) < End(Of(e, y)) {
        InOrderNode(t.right, y);
      }
    }
  }

  lemma WalkNodes(t: Tree, e: Ios, q: Io)
    ensures forall x :: x in FullWalk(t, e, q) <==> x in Nodes(t) && Within(Of(e, x), q)
    ensures forall x :: x in Walk(t, e, q) ==> x in Nodes(t) && Within(Of(e, x), q)
  {
    hide Of, Start, End, Within, Walk, FullWalk, Nodes;
    forall x ensures x in FullWalk(t, e, q) <==> x in Nodes(t) && Within(Of(e, x), q) {
      WalkMember(t, e, q, x);
    }
    forall x | x in Walk(t, e, q) ensures x in Nodes(t) && Within(Of(e, x), q) {
      WalkMember(t, e, q, x);
    }
  }

  lemma {:induction false} WalkMember(t: Tree, e: Ios, q: Io, x: RbNode)
    ensures x in FullWalk(t, e, q) <==> x in Nodes(t) && Within(Of(e, x), q)
    ensures x in Walk(t, e, q) ==> x in Nodes(t) && Within(Of(e, x), q)
  {
    hide Of, Start, End, Within, Walk, FullWalk;
    if t.Leaf? {
      WalkLeaf(t, e, q);
    } else {
      WalkNode(t, e, q);
      WalkMember(t.left, e, q, x);
      WalkMember(t.right, e, q, x);
      var y := Of(e, t.it);
      InThree(if Within(y, q) then [t.it] else [],
              if Start(q) < Start(y) then Walk(t.left, e, q) else [],
              if End(y) < End(q) then Walk(t.right, e, q) else [], x);
      InThree(if Within(y, q) then [t.it] else [], FullWalk(t.left, e, q), FullWalk(t.right, e, q), x);
    }
  }

  lemma InThree(a: seq<RbNode>, b: seq<RbNode>, c: seq<RbNode>, x: RbNode)
    ensures x in a + b + c <==> x in a || x in b || x in c
  {
    assert x in a + b <==> x in a || x in b;
  }

  lemma {:induction false} NothingWithin(t: Tree, e: Ios, q: Io)
    requires forall x :: x in Nodes(t) ==> !Within(Of(e, x), q)
    ensures FullWalk(t, e, q) == []
  {
    if t.Node? {
      NothingWithin(t.left, e, q);
      NothingWithin(t.right, e, q);
      assert t.it in Nodes(t);
    }
  }

  lemma NothingLeft(l: Tree, x: RbNode, r: Tree, e: Ios, q: Io)
    requires StartsRise(InOrder(l) + [x] + InOrder(r), e) && Start(q) >= Start(Of(e, x))
    ensures FullWalk(l, e, q) == []
  {
    hide Of;
    StartsParts(InOrder(l), x, InOrder(r), e);
    forall y | y in Nodes(l) ensures !Within(Of(e, y), q) {
      InOrderNode(l, y);
    }
    NothingWithin(l, e, q);
  }

  lemma NothingRight(x: RbNode, r: Tree, e: Ios, q: Io)
    requires (forall y :: y in Nodes(r) ==> End(Of(e, x)) < End(Of(e, y))) && End(Of(e, x)) >= End(q)
    ensures FullWalk(r, e, q) == []
  {
    NothingWithin(r, e, q);
  }

  /** Then the walk finds what a full one would, in the same order. */
  lemma {:induction false} NothingMissed(t: Tree, e: Ios, q: Io)
    requires StartsRise(InOrder(t), e) && NoneCovered(t, e)
    ensures Walk(t, e, q) == FullWalk(t, e, q)
  {
    if t.Node? {
      hide StartsRise, Of, Start, End, Within, Walk, FullWalk;
      WalkNode(t, e, q);
      StartsParts(InOrder(t.left), t.it, InOrder(t.right), e);
      NothingMissed(t.left, e, q);
      NothingMissed(t.right, e, q);
      if Start(q) >= Start(Of(e, t.it)) {
        NothingLeft(t.left, t.it, t.right, e, q);
      }
      if End(Of(e, t.it)) >= End(q) {
        NothingRight(t.it, t.right, e, q);
      }
    }
  }

  lemma WithinItself(q: Io)
    ensures Within(q, q)
  {
  }

  /** Otherwise some I/O is missed: the walk for its own range leaves it out. */
  lemma {:induction false} Missed(t: Tree, e: Ios) returns (x: RbNode)
    requires Distinct(t) && !NoneCovered(t, e)
    ensures x in Nodes(t) && x !in Walk(t, e, Of(e, x)) && x in FullWalk(t, e, Of(e, x))
  {
    hide Of, End, Within, Walk, FullWalk, Start;
    if !NoneCovered(t.left, e) {
      x := Missed(t.left, e);
    } else if !NoneCovered(t.right, e) {
      x := Missed(t.right, e);
    } else {
      x :| x in Nodes(t.right) && End(Of(e, t.it)) >= End(Of(e, x));
    }
    WithinItself(Of(e, x));
    WalkNode(t, e, Of(e, x));
    WalkNodes(t, e, Of(e, x));
    WalkNodes(t.left, e, Of(e, x));
    WalkNodes(t.right, e, Of(e, x));
  }

  /** The walk is right for every query exactly if no I/O reaches over one in its right subtree. */
  lemma WalkIsFullIff(t: Tree, e: Ios)
    requires Distinct(t) && StartsRise(InOrder(t), e)
    ensures (forall q :: Walk(t, e, q) == FullWalk(t, e, q)) <==> NoneCovered(t, e)
  {
    if NoneCovered(t, e) {
      forall q ensures Walk(t, e, q) == FullWalk(t, e, q) {
        NothingMissed(t, e, q);
      }
    } else {
      var x := Missed(t, e);
      assert Walk(t, e, Of(e, x)) != FullWalk(t, e, Of(e, x));
    }
  }

  /** The walk lists no node twice. */
  lemma {:induction false} WalkOnce(t: Tree, e: Ios, q: Io, x: RbNode)
    requires Distinct(t)
    ensures multiset(Walk(t, e, q))[x] <= 1
  {
    hide Of, Start, End, Within, Walk, FullWalk, Distinct, Nodes;
    if t.Leaf? {
      WalkLeaf(t, e, q);
    } else {
      DistinctParts(t, x);
      WalkNode(t, e, q);
      WalkOnce(t.left, e, q, x);
      WalkOnce(t.right, e, q, x);
      NotIn(t.left, e, q, x);
      NotIn(t.right, e, q, x);
      var y := Of(e, t.it);
      OneOf(Walk(t, e, q), t.it, Walk(t.left, e, q), Walk(t.right, e, q), x, x in Nodes(t.left), x in Nodes(t.right),
            Within(y, q), Start(q) < Start(y), End(y) < End(q));
    }
  }

  lemma WalkLeaf(t: Tree, e: Ios, q: Io)
    ensures t.Leaf? ==> Walk(t, e, q) == [] && FullWalk(t, e, q) == []
  {
  }

  /** x is in at most one of the parts, whichever of them are there. */
  lemma OneOf(w: seq<RbNode>, it: RbNode, b: seq<RbNode>, c: seq<RbNode>, x: RbNode, inB: bool, inC: bool,
              p: bool, q: bool, r: bool)
    requires w == (if p then [it] else []) + (if q then b else []) + (if r then c else [])
    requires multiset(b)[x] <= (if inB then 1 else 0) && multiset(c)[x] <= (if inC then 1 else 0)
    requires !(inB && inC) && (x == it ==> !inB && !inC)
    ensures multiset(w)[x] <= 1
  {
    CountParts(if p then [it] else [], if q then b else [], if r then c else [], x);
    assert multiset([it])[x] == if x == it then 1 else 0;
  }

  lemma DistinctParts(t: Tree, x: RbNode)
    requires Distinct(t) && t.Node?
    ensures Distinct(t.left) && Distinct(t.right)
    ensures x == t.it ==> x !in Nodes(t.left) && x !in Nodes(t.right)
    ensures x !in Nodes(t.left) || x !in Nodes(t.right)
  {
  }

  lemma NotIn(t: Tree, e: Ios, q: Io, x: RbNode)
    ensures x !in Nodes(t) ==> multiset(Walk(t, e, q))[x] == 0
  {
    WalkNodes(t, e, q);
  }

  lemma CountParts(a: seq<RbNode>, b: seq<RbNode>, c: seq<RbNode>, x: RbNode)
    ensures multiset(a + b + c)[x] == multiset(a)[x] + multiset(b)[x] + multiset(c)[x]
  {
    assert multiset(a + b + c) == multiset(a) + multiset(b) + multiset(c);
  }
}
