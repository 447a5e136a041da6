/** The queue of stat/queue-semiblocking.c: producers push onto a shared stack with compare-and-swap; a
    consumer, holding a mutex, steals the whole stack and reverses it into a private list.
    Any number of threads; one action is one shared access, or one step of a mutex holder. */
module CasQueue {

  import opened Wrappers

  /** struct queue_head * */
  datatype Ptr = Null | To(n: nat)

  /** The next field of every node, and the two fields of struct queue_root. */
  datatype Mem = Mem(next: map<nat, Ptr>, inQueue: Ptr, outQueue: Ptr)

  /** Where a thread stands in queue_put or queue_get. */
  datatype Pc =
    | Outside
    | PutRead(node: nat)                 // before in_queue = root->in_queue
    | PutLink(node: nat, seen: Ptr)      // before new->next = in_queue
    | PutCas(node: nat, seen: Ptr)       // before the compare-and-swap
    | GetLock                            // before pthread_mutex_lock
    | GetTest                            // before if (!root->out_queue)
    | GetRead                            // before head = root->in_queue
    | GetCas(head: nat)                  // before the compare-and-swap
    | RevRead(head: nat)                 // before next = head->next
    | RevLink(head: nat, rest: Ptr)      // before head->next = root->out_queue
    | RevPush(head: nat, rest: Ptr)      // before root->out_queue = head
    | PopRead(sawEmpty: bool)            // before head = root->out_queue; auxiliary: in_queue was read as NULL
    | PopNext(head: nat)                 // before root->out_queue = head->next
    | GetUnlock(result: Ptr)             // before pthread_mutex_unlock, with the result

  /** Auxiliary: the nodes linked from in_queue (newest first), from out_queue (oldest first), and of a
      stolen stack still to be reversed (newest first); and all nodes put and got so far. */
  datatype Aux = Aux(ins: seq<nat>, outs: seq<nat>, rest: seq<nat>, puts: seq<nat>, gets: seq<nat>)

  datatype State = State(mem: Mem, lock: Option<nat>, pcs: map<nat, Pc>, aux: Aux)

  function Reverse(s: seq<nat>): (r: seq<nat>)
    ensures |r| == |s|
  {
    if s == [] then [] else Reverse(s[1..]) + [s[0]]
  }

  /** The abstract queue, next to be got first. */
  ghost function Contents(a: Aux): seq<nat> {
    Reverse(a.rest) + a.outs + Reverse(a.ins)
  }

  function Tail(s: seq<nat>): seq<nat> {
    if s == [] then [] else s[1..]
  }

  ghost function Next(m: Mem, n: nat): Ptr {
    if n in m.next then m.next[n] else Null
  }

  /** Following next from p goes through exactly the nodes of s and ends. */
  ghost predicate Chain(m: Mem, p: Ptr, s: seq<nat>)
    decreases |s|
  {
    if s == [] then p == Null else p == To(s[0]) && Chain(m, Next(m, s[0]), s[1..])
  }

  ghost predicate EachOnce(s: seq<nat>) {
    forall x :: x in s ==> multiset(s)[x] == 1
  }

  /** The nodes linked anywhere. */
  ghost function Linked(a: Aux): seq<nat> {
    a.ins + a.outs + a.rest
  }

  /** The node a thread has in its hands. */
  function Hand(p: Pc): set<nat> {
    match p
    case PutRead(n) => {n}
    case PutLink(n, _) => {n}
    case PutCas(n, _) => {n}
    case GetUnlock(To(n)) => {n}
    case _ => {}
  }

  predicate Holds(p: Pc) {
    || p.GetTest? || p.GetRead? || p.GetCas? || p.RevRead? || p.RevLink? || p.RevPush?
    || p.PopRead? || p.PopNext? || p.GetUnlock?
  }

  // ---------- steps ----------

  /** The store to n's next field. */
  ghost function PutLinkMem(m: Mem, n: nat, v: Ptr): Mem {
    m.(next := m.next[n := v])
  }

  /** The writes that push n, steal the stack, put the next stolen node at the front of out_queue, and take the
      first node out; and what they do to the lists. */
  ghost function PushMem(m: Mem, n: nat): Mem { m.(inQueue := To(n)) }
  ghost function PushAux(a: Aux, n: nat): Aux { a.(ins := [n] + a.ins, puts := a.puts + [n]) }
  ghost function StealMem(m: Mem): Mem { m.(inQueue := Null) }
  ghost function StealAux(a: Aux): Aux { a.(ins := [], rest := a.ins) }
  ghost function RevMem(m: Mem, head: nat): Mem { m.(outQueue := To(head)) }
  ghost function RevAux(a: Aux, head: nat): Aux { a.(outs := [head] + a.outs, rest := Tail(a.rest)) }
  ghost function PopMem(m: Mem, head: nat): Mem { m.(outQueue := Next(m, head)) }
  ghost function PopAux(a: Aux, head: nat): Aux { a.(outs := Tail(a.outs), gets := a.gets + [head]) }

  function Go(s: State, t: nat, p: Pc): State {
    s.(pcs := s.pcs[t := p])
  }

  /** A client may put a node that is not linked and in nobody's hands. */
  ghost predicate MayPut(s: State, n: nat) {
    n !in Linked(s.aux) && forall t :: t in s.pcs ==> n !in Hand(s.pcs[t])
  }

  /** The steps of thread t; node is the one a new queue_put is called with. */
  ghost predicate Step(s: State, t: nat, node: nat, s': State) {
    && t in s.pcs
    && match s.pcs[t]
       case Outside => (MayPut(s, node) && s' == Go(s, t, PutRead(node))) || s' == Go(s, t, GetLock)
       case PutRead(n) => s' == Go(s, t, PutLink(n, s.mem.inQueue))
       case PutLink(n, seen) => s' == Go(s.(mem := PutLinkMem(s.mem, n, seen)), t, PutCas(n, seen))
       case PutCas(n, seen) =>
         if s.mem.inQueue == seen then s' == Go(s.(mem := PushMem(s.mem, n), aux := PushAux(s.aux, n)), t, Outside)
         else s' == Go(s, t, PutRead(n))
       case GetLock => s.lock == None && s' == Go(s.(lock := Some(t)), t, GetTest)
       case GetTest => s' == Go(s, t, if s.mem.outQueue == Null then GetRead else PopRead(false))
       case GetRead => s' == Go(s, t, if s.mem.inQueue == Null then PopRead(true) else GetCas(s.mem.inQueue.n))
       case GetCas(head) =>
         if s.mem.inQueue == To(head)
         then s' == Go(s.(mem := StealMem(s.mem), aux := StealAux(s.aux)), t, RevRead(head))
         else s' == Go(s, t, GetRead)
       case RevRead(head) => s' == Go(s, t, RevLink(head, Next(s.mem, head)))
       case RevLink(head, rest) => s' == Go(s.(mem := PutLinkMem(s.mem, head, s.mem.outQueue)), t, RevPush(head, rest))
       case RevPush(head, rest) =>
         s' == Go(s.(mem := RevMem(s.mem, head), aux := RevAux(s.aux, head)),
                  t, if rest == Null then PopRead(false) else RevRead(rest.n))
       case PopRead(_) => s' == Go(s, t, if s.mem.outQueue == Null then GetUnlock(Null) else PopNext(s.mem.outQueue.n))
       case PopNext(head) =>
         s' == Go(s.(mem := PopMem(s.mem, head), aux := PopAux(s.aux, head)), t, GetUnlock(To(head)))
       case GetUnlock(_) => s' == Go(s.(lock := None), t, Outside)
  }

  // ---------- what every step keeps ----------

  /** What a thread at p may rely on. */
  ghost predicate Knows(m: Mem, a: Aux, p: Pc) {
    match p
    case PutCas(n, seen) => Next(m, n) == seen
    case GetRead => a.outs == [] && a.rest == []
    case GetCas(_) => a.outs == [] && a.rest == []
    case RevRead(head) => Chain(m, To(head), a.rest)
    case RevLink(head, rest) => a.rest != [] && a.rest[0] == head && Chain(m, rest, Tail(a.rest))
    case RevPush(head, rest) =>
      a.rest != [] && a.rest[0] == head && Chain(m, rest, Tail(a.rest)) && Next(m, head) == m.outQueue
    case PopNext(head) => a.rest == [] && a.outs != [] && a.outs[0] == head
    case GetTest => a.rest == []
    case PopRead(sawEmpty) => a.rest == [] && (sawEmpty <==> a.outs == [])
    case GetUnlock(_) => a.rest == []
    case _ => true
  }

  /** The two links lead through the nodes they should, and no node is linked twice. */
  ghost predicate Shape(m: Mem, a: Aux) {
    Chain(m, m.inQueue, a.ins) && Chain(m, m.outQueue, a.outs) && EachOnce(Linked(a))
  }

  ghost predicate History(a: Aux) {
    a.puts == a.gets + Contents(a)
  }

  /** Nodes in hands are not linked, and in one hand only. */
  ghost predicate Hands(pcs: map<nat, Pc>, a: Aux) {
    && (forall t, n :: t in pcs && n in Hand(pcs[t]) ==> n !in Linked(a))
    && (forall t, u :: t in pcs && u in pcs && t != u ==> Hand(pcs[t]) !! Hand(pcs[u]))
  }

  ghost predicate Mutex(lock: Option<nat>, pcs: map<nat, Pc>, a: Aux) {
    && (forall t :: t in pcs && Holds(pcs[t]) ==> lock == Some(t))
    && (lock.Some? ==> lock.value in pcs && Holds(pcs[lock.value]))
    && (lock == None ==> a.rest == [])
  }

  ghost predicate AllKnow(m: Mem, a: Aux, pcs: map<nat, Pc>) {
    forall t :: t in pcs ==> Knows(m, a, pcs[t])
  }

  ghost predicate Inv(s: State) {
    && Shape(s.mem, s.aux) && History(s.aux) && Hands(s.pcs, s.aux)
    && Mutex(s.lock, s.pcs, s.aux) && AllKnow(s.mem, s.aux, s.pcs)
  }

  lemma {:induction false} ChainFrame(m: Mem, m': Mem, p: Ptr, s: seq<nat>)
    requires Chain(m, p, s) && forall n :: n in s ==> Next(m', n) == Next(m, n)
    ensures Chain(m', p, s)
    decreases |s|
  {
    if s != [] {
      ChainFrame(m, m', Next(m, s[0]), s[1..]);
    }
  }

  /** One thread moves on to p with new memory and new lists; nodes only move between its hand and the lists. */
  lemma Rebuild(s: State, t: nat, p: Pc, m: Mem, a: Aux)
    requires Inv(s) && t in s.pcs && Holds(p) == Holds(s.pcs[t])
    requires Shape(m, a) && History(a) && Knows(m, a, p)
    requires forall u :: u in s.pcs && u != t ==> Knows(m, a, s.pcs[u])
    requires forall x :: x in Linked(a) ==> (x in Linked(s.aux) || x in Hand(s.pcs[t])) && x !in Hand(p)
    requires forall x :: x in Hand(p) ==> x in Hand(s.pcs[t]) || x in Linked(s.aux)
    requires s.lock == None ==> a.rest == []
    ensures Inv(Go(s.(mem := m, aux := a), t, p))
  {
    hide Shape, History, Knows, Linked, Holds;
    RebuildHands(s.pcs, t, p, s.aux, a);
  }

  lemma RebuildHands(pcs: map<nat, Pc>, t: nat, p: Pc, a: Aux, a': Aux)
    requires Hands(pcs, a) && t in pcs
    requires forall x :: x in Linked(a') ==> (x in Linked(a) || x in Hand(pcs[t])) && x !in Hand(p)
    requires forall x :: x in Hand(p) ==> x in Hand(pcs[t]) || x in Linked(a)
    ensures Hands(pcs[t := p], a')
  {
    hide Hand, Linked;
    var pcs' := pcs[t := p];
    forall u, x | u in pcs' && x in Hand(pcs'[u]) ensures x !in Linked(a') {
      if u != t {
        assert Hand(pcs[t]) !! Hand(pcs[u]);
        assert x !in Linked(a);
      }
    }
    forall u | u in pcs && u != t ensures Hand(p) !! Hand(pcs[u]) {
      forall x | x in Hand(p) ensures x !in Hand(pcs[u]) {
        assert Hand(pcs[t]) !! Hand(pcs[u]);
      }
    }
  }

  /** A step that only moves a thread on. */
  lemma KeepGo(s: State, t: nat, p: Pc)
    requires Inv(s) && t in s.pcs && Knows(s.mem, s.aux, p)
    requires Hand(p) == Hand(s.pcs[t]) && Holds(p) == Holds(s.pcs[t])
    ensures Inv(Go(s, t, p))
  {
    hide Shape, History, Knows, Linked;
    Rebuild(s, t, p, s.mem, s.aux);
  }

  lemma KeepStartPut(s: State, t: nat, n: nat)
    requires Inv(s) && t in s.pcs && s.pcs[t].Outside? && MayPut(s, n)
    ensures Inv(Go(s, t, PutRead(n)))
  {
    hide Shape, History, Linked;
  }

  lemma KeepLock(s: State, t: nat)
    requires Inv(s) && t in s.pcs && s.pcs[t].GetLock? && s.lock == None
    ensures Inv(Go(s.(lock := Some(t)), t, GetTest))
  {
    hide Shape, History, Linked;
  }

  lemma KeepUnlock(s: State, t: nat)
    requires Inv(s) && t in s.pcs && s.pcs[t].GetUnlock?
    ensures Inv(Go(s.(lock := None), t, Outside))
  {
    hide Shape, History, Linked;
  }

  lemma InLinked(a: Aux, x: nat)
    ensures x in Linked(a) <==> x in a.ins || x in a.outs || x in a.rest
  {
  }

  lemma LinkedOnce(a: Aux, x: nat)
    ensures multiset(Linked(a))[x] == multiset(a.ins)[x] + multiset(a.outs)[x] + multiset(a.rest)[x]
  {
  }

  // ---------- writes to a node in hand ----------

  lemma LinkShape(m: Mem, a: Aux, n: nat, v: Ptr)
    requires Shape(m, a) && n !in Linked(a)
    ensures Shape(PutLinkMem(m, n, v), a)
  {
    InLinked(a, n);
    ChainFrame(m, PutLinkMem(m, n, v), m.inQueue, a.ins);
    ChainFrame(m, PutLinkMem(m, n, v), m.outQueue, a.outs);
  }

  lemma LinkKnows(m: Mem, a: Aux, p: Pc, n: nat, v: Ptr)
    requires Knows(m, a, p) && n !in Linked(a) && n !in Hand(p)
    ensures Knows(PutLinkMem(m, n, v), a, p)
  {
    InLinked(a, n);
    var m' := PutLinkMem(m, n, v);
    match p
    case RevRead(head) => ChainFrame(m, m', To(head), a.rest);
    case RevLink(head, rest) => assert a.rest[0] in a.rest; ChainFrame(m, m', rest, Tail(a.rest));
    case RevPush(head, rest) => assert a.rest[0] in a.rest; ChainFrame(m, m', rest, Tail(a.rest));
    case _ =>
  }

  lemma KeepPutLink(s: State, t: nat)
    requires Inv(s) && t in s.pcs && s.pcs[t].PutLink?
    ensures var n, seen := s.pcs[t].node, s.pcs[t].seen;
      Inv(Go(s.(mem := PutLinkMem(s.mem, n, seen)), t, PutCas(n, seen)))
  {
    var n, seen, m, a := s.pcs[t].node, s.pcs[t].seen, s.mem, s.aux;
    var m' := PutLinkMem(m, n, seen);
    assert n in Hand(s.pcs[t]);
    assert Knows(m', a, PutCas(n, seen));
    hide Shape, History, Linked, Knows;
    LinkShape(m, a, n, seen);
    forall u | u in s.pcs && u != t ensures Knows(m', a, s.pcs[u]) {
      assert Hand(s.pcs[t]) !! Hand(s.pcs[u]);
      LinkKnows(m, a, s.pcs[u], n, seen);
    }
    Rebuild(s, t, PutCas(n, seen), m', a);
  }

  /** What a thread without the mutex relies on does not depend on the lists. */
  lemma OthersKnow(m: Mem, a: Aux, m': Mem, a': Aux, p: Pc)
    requires Knows(m, a, p) && !Holds(p)
    requires forall n :: n in Hand(p) ==> Next(m', n) == Next(m, n)
    ensures Knows(m', a', p)
  {
  }

  lemma PushShape(m: Mem, a: Aux, n: nat)
    requires Shape(m, a) && History(a) && n !in Linked(a) && Next(m, n) == m.inQueue
    ensures Shape(PushMem(m, n), PushAux(a, n)) && History(PushAux(a, n))
    ensures Contents(PushAux(a, n)) == Contents(a) + [n]
    ensures forall x :: x in Linked(PushAux(a, n)) ==> x in Linked(a) || x == n
  {
    hide Contents, Linked, EachOnce;
    PushChains(m, a, n);
    PushOrder(a, n);
    PushLinked(a, n);
    OneNew(n, Linked(a));
    assert a.puts + [n] == a.gets + (Contents(a) + [n]);
  }

  lemma PushChains(m: Mem, a: Aux, n: nat)
    requires Chain(m, m.inQueue, a.ins) && Chain(m, m.outQueue, a.outs) && Next(m, n) == m.inQueue
    ensures var m' := PushMem(m, n); Chain(m', m'.inQueue, [n] + a.ins) && Chain(m', m'.outQueue, a.outs)
  {
    var m', ins := PushMem(m, n), [n] + a.ins;
    ChainFrame(m, m', m.inQueue, a.ins);
    ChainFrame(m, m', m.outQueue, a.outs);
    assert ins[1..] == a.ins;
  }

  lemma PushLinked(a: Aux, n: nat)
    ensures Linked(PushAux(a, n)) == [n] + Linked(a)
  {
  }

  lemma OneNew(n: nat, s: seq<nat>)
    requires EachOnce(s) && n !in s
    ensures EachOnce([n] + s)
  {
    var t := [n] + s;
    forall x | x in t ensures multiset(t)[x] == 1 {
      assert multiset(t)[x] == multiset{n}[x] + multiset(s)[x];
    }
  }

  lemma PushOrder(a: Aux, n: nat)
    ensures Contents(PushAux(a, n)) == Contents(a) + [n]
  {
    var ins := [n] + a.ins;
    assert ins[1..] == a.ins;
    assert Reverse(ins) == Reverse(a.ins) + [n];
  }

  lemma PushKnows(m: Mem, a: Aux, p: Pc, n: nat)
    requires Knows(m, a, p)
    ensures Knows(PushMem(m, n), PushAux(a, n), p)
  {
    var m' := PushMem(m, n);
    match p
    case RevRead(head) => ChainFrame(m, m', To(head), a.rest);
    case RevLink(_, rest) => ChainFrame(m, m', rest, Tail(a.rest));
    case RevPush(_, rest) => ChainFrame(m, m', rest, Tail(a.rest));
    case _ =>
  }

  /** The push: whatever happened to the old head in between, the new node is linked to the present one. */
  lemma KeepPutCas(s: State, t: nat)
    requires Inv(s) && t in s.pcs && s.pcs[t].PutCas? && s.mem.inQueue == s.pcs[t].seen
    ensures var n := s.pcs[t].node; Inv(Go(s.(mem := PushMem(s.mem, n), aux := PushAux(s.aux, n)), t, Outside))
  {
    var n, m, a := s.pcs[t].node, s.mem, s.aux;
    assert n in Hand(s.pcs[t]) && Knows(m, a, s.pcs[t]);
    assert Knows(PushMem(m, n), PushAux(a, n), Outside);
    hide Shape, History, Linked, Contents;
    PushShape(m, a, n);
    hide Knows, PushMem;
    forall u | u in s.pcs && u != t ensures Knows(PushMem(m, n), PushAux(a, n), s.pcs[u]) {
      PushKnows(m, a, s.pcs[u], n);
    }
    Rebuild(s, t, Outside, PushMem(m, n), PushAux(a, n));
  }

  // ---------- stealing and reversing ----------

  lemma StealShape(m: Mem, a: Aux, head: nat)
    requires Shape(m, a) && History(a) && Knows(m, a, GetCas(head)) && m.inQueue == To(head)
    ensures Shape(StealMem(m), StealAux(a)) && History(StealAux(a)) && Contents(StealAux(a)) == Contents(a)
    ensures Knows(StealMem(m), StealAux(a), RevRead(head))
    ensures forall x :: x in Linked(StealAux(a)) ==> x in Linked(a)
  {
    var m' := StealMem(m);
    ChainFrame(m, m', m.inQueue, a.ins);
    ChainFrame(m, m', m.outQueue, a.outs);
    assert Linked(StealAux(a)) == Linked(a);
    assert Reverse(a.ins) + [] + Reverse([]) == Contents(a);
  }

  lemma KeepSteal(s: State, t: nat)
    requires Inv(s) && t in s.pcs && s.pcs[t].GetCas? && s.mem.inQueue == To(s.pcs[t].head)
    ensures Inv(Go(s.(mem := StealMem(s.mem), aux := StealAux(s.aux)), t, RevRead(s.pcs[t].head)))
  {
    var m, a := s.mem, s.aux;
    hide Shape, History, Linked, Contents, Knows;
    StealShape(m, a, s.pcs[t].head);
    forall u | u in s.pcs && u != t ensures Knows(StealMem(m), StealAux(a), s.pcs[u]) {
      OthersKnow(m, a, StealMem(m), StealAux(a), s.pcs[u]);
    }
    Rebuild(s, t, RevRead(s.pcs[t].head), StealMem(m), StealAux(a));
  }

  /** The first stolen node is linked nowhere else. */
  lemma NotElsewhere(a: Aux, head: nat)
    requires EachOnce(Linked(a)) && a.rest != [] && a.rest[0] == head
    ensures head !in a.ins && head !in a.outs && head !in Tail(a.rest)
  {
    assert a.rest == [head] + Tail(a.rest);
    InLinked(a, head);
    LinkedOnce(a, head);
    assert head !in multiset(a.ins) && head !in multiset(a.outs) && head !in multiset(Tail(a.rest));
  }

  lemma RevLinkShape(m: Mem, a: Aux, head: nat, rest: Ptr)
    requires Shape(m, a) && Knows(m, a, RevLink(head, rest))
    ensures var m' := PutLinkMem(m, head, m.outQueue); Shape(m', a) && Knows(m', a, RevPush(head, rest))
    ensures head in Linked(a)
  {
    hide Linked, EachOnce;
    var m' := PutLinkMem(m, head, m.outQueue);
    InLinked(a, head);
    NotElsewhere(a, head);
    ChainFrame(m, m', m.inQueue, a.ins);
    ChainFrame(m, m', m.outQueue, a.outs);
    ChainFrame(m, m', rest, Tail(a.rest));
  }

  lemma KeepRevLink(s: State, t: nat)
    requires Inv(s) && t in s.pcs && s.pcs[t].RevLink?
    ensures var head, rest := s.pcs[t].head, s.pcs[t].rest;
      Inv(Go(s.(mem := PutLinkMem(s.mem, head, s.mem.outQueue)), t, RevPush(head, rest)))
  {
    var head, rest, m, a := s.pcs[t].head, s.pcs[t].rest, s.mem, s.aux;
    var m' := PutLinkMem(m, head, m.outQueue);
    hide Shape, History, Linked, Knows;
    RevLinkShape(m, a, head, rest);
    forall u | u in s.pcs && u != t ensures Knows(m', a, s.pcs[u]) {
      OthersKnow(m, a, m', a, s.pcs[u]);
    }
    Rebuild(s, t, RevPush(head, rest), m', a);
  }

  lemma RevOrder(a: Aux, head: nat)
    requires a.rest != [] && a.rest[0] == head
    ensures Contents(RevAux(a, head)) == Contents(a)
    ensures multiset(Linked(RevAux(a, head))) == multiset(Linked(a))
  {
    var a' := RevAux(a, head);
    assert a.rest == [head] + a'.rest;
    assert Reverse(a.rest) == Reverse(a'.rest) + [head];
    assert Reverse(a.rest) + a.outs == Reverse(a'.rest) + a'.outs;
  }

  lemma RevShape(m: Mem, a: Aux, head: nat, rest: Ptr)
    requires Shape(m, a) && History(a) && Knows(m, a, RevPush(head, rest))
    ensures Shape(RevMem(m, head), RevAux(a, head)) && History(RevAux(a, head))
    ensures Knows(RevMem(m, head), RevAux(a, head), if rest == Null then PopRead(false) else RevRead(rest.n))
    ensures forall x :: x in Linked(RevAux(a, head)) ==> x in Linked(a)
  {
    var m', a' := RevMem(m, head), RevAux(a, head);
    hide Linked, Contents;
    RevOrder(a, head);
    SameElements(Linked(a), Linked(a'));
    ChainFrame(m, m', m.inQueue, a.ins);
    ChainFrame(m, m', m.outQueue, a.outs);
    ChainFrame(m, m', rest, a'.rest);
    assert a'.outs[1..] == a.outs;
  }

  lemma SameElements(a: seq<nat>, b: seq<nat>)
    requires multiset(a) == multiset(b)
    ensures EachOnce(a) ==> EachOnce(b)
    ensures forall x :: x in b ==> x in a
  {
    forall x | x in b ensures x in a {
      assert x in multiset(b);
      assert x in multiset(a);
    }
  }

  lemma KeepRevPush(s: State, t: nat)
    requires Inv(s) && t in s.pcs && s.pcs[t].RevPush?
    ensures var head, rest := s.pcs[t].head, s.pcs[t].rest;
      Inv(Go(s.(mem := RevMem(s.mem, head), aux := RevAux(s.aux, head)), t,
             if rest == Null then PopRead(false) else RevRead(rest.n)))
  {
    var head, rest, m, a := s.pcs[t].head, s.pcs[t].rest, s.mem, s.aux;
    hide Shape, History, Linked, Knows;
    RevShape(m, a, head, rest);
    forall u | u in s.pcs && u != t ensures Knows(RevMem(m, head), RevAux(a, head), s.pcs[u]) {
      OthersKnow(m, a, RevMem(m, head), RevAux(a, head), s.pcs[u]);
    }
    Rebuild(s, t, if rest == Null then PopRead(false) else RevRead(rest.n), RevMem(m, head), RevAux(a, head));
  }

  // ---------- taking the first node ----------

  lemma PopOrder(a: Aux, head: nat)
    requires a.rest == [] && a.outs != [] && a.outs[0] == head
    ensures Contents(a) == [head] + Contents(PopAux(a, head))
    ensures multiset(Linked(a)) == multiset([head] + Linked(PopAux(a, head)))
  {
    var a' := PopAux(a, head);
    assert a.outs == [head] + a'.outs;
    assert Contents(a) == [head] + Contents(a');
  }

  lemma PopShape(m: Mem, a: Aux, head: nat)
    requires Shape(m, a) && History(a) && Knows(m, a, PopNext(head))
    ensures Shape(PopMem(m, head), PopAux(a, head)) && History(PopAux(a, head))
    ensures Contents(a) == [head] + Contents(PopAux(a, head)) && head in Linked(a)
    ensures Knows(PopMem(m, head), PopAux(a, head), GetUnlock(To(head)))
    ensures forall x :: x in Linked(PopAux(a, head)) ==> x in Linked(a) && x != head
  {
    var m', a' := PopMem(m, head), PopAux(a, head);
    InLinked(a, head);
    hide Linked, Contents;
    PopOrder(a, head);
    SameElements(Linked(a), [head] + Linked(a'));
    SameElements([head] + Linked(a'), Linked(a));
    OneLess(head, Linked(a'));
    ChainFrame(m, m', m.inQueue, a.ins);
    ChainFrame(m, m', Next(m, head), a'.outs);
    assert a.gets + ([head] + Contents(a')) == a'.gets + Contents(a');
  }

  lemma OneLess(head: nat, s: seq<nat>)
    requires EachOnce([head] + s)
    ensures EachOnce(s) && head !in s
  {
    var t := [head] + s;
    forall x | x in s ensures x in t && multiset(s)[x] == 1 && x != head {
      assert x in multiset(s);
      assert multiset(t)[x] == multiset{head}[x] + multiset(s)[x];
      assert x in multiset(t);
    }
  }

  lemma KeepPop(s: State, t: nat)
    requires Inv(s) && t in s.pcs && s.pcs[t].PopNext?
    ensures var head := s.pcs[t].head;
      Inv(Go(s.(mem := PopMem(s.mem, head), aux := PopAux(s.aux, head)), t, GetUnlock(To(head))))
  {
    hide Shape, History, Linked, Knows, Contents, Hands, Mutex, AllKnow, PopMem, PopAux, Next;
    var head, m, a := s.pcs[t].head, s.mem, s.aux;
    assert Knows(m, a, PopNext(head)) && s.lock == Some(t) by { PopperKnows(s, t); }
    PopShape(m, a, head);
    PopOthers(s, t);
    Rebuild(s, t, GetUnlock(To(head)), PopMem(m, head), PopAux(a, head));
  }

  lemma PopperKnows(s: State, t: nat)
    requires Mutex(s.lock, s.pcs, s.aux) && AllKnow(s.mem, s.aux, s.pcs) && t in s.pcs && s.pcs[t].PopNext?
    ensures Knows(s.mem, s.aux, s.pcs[t]) && s.lock == Some(t)
  {
    assert Holds(s.pcs[t]);
  }

  lemma PopOthers(s: State, t: nat)
    requires Mutex(s.lock, s.pcs, s.aux) && AllKnow(s.mem, s.aux, s.pcs) && t in s.pcs && s.pcs[t].PopNext?
    ensures var head := s.pcs[t].head;
      forall u :: u in s.pcs && u != t ==> Knows(PopMem(s.mem, head), PopAux(s.aux, head), s.pcs[u])
  {
    hide Knows, Hand;
    var head, m, a := s.pcs[t].head, s.mem, s.aux;
    forall u | u in s.pcs && u != t ensures Knows(PopMem(m, head), PopAux(a, head), s.pcs[u]) {
      OthersKnow(m, a, PopMem(m, head), PopAux(a, head), s.pcs[u]);
    }
  }

  // ---------- whole runs ----------

  /** Steps that only read: what the thread learns is true. */
  lemma Reads(s: State, t: nat)
    requires Shape(s.mem, s.aux) && t in s.pcs && Knows(s.mem, s.aux, s.pcs[t])
    ensures var m, a := s.mem, s.aux;
      match s.pcs[t]
      case GetTest => Knows(m, a, if m.outQueue == Null then GetRead else PopRead(false))
      case GetRead => Knows(m, a, if m.inQueue == Null then PopRead(true) else GetCas(m.inQueue.n))
      case RevRead(head) => Knows(m, a, RevLink(head, Next(m, head)))
      case PopRead(sawEmpty) => if m.outQueue == Null then sawEmpty else !sawEmpty && Knows(m, a, PopNext(m.outQueue.n))
      case _ => true
  {
  }

  lemma StepKeepsInv(s: State, t: nat, node: nat, s': State)
    requires Inv(s) && Step(s, t, node, s')
    ensures Inv(s')
  {
    hide Shape, History, Linked, Chain, Hands, PutLinkMem;
    hide PushMem, PushAux, StealMem, StealAux, RevMem, RevAux, PopMem, PopAux;
    Reads(s, t);
    hide Mutex, AllKnow;
    match s.pcs[t]
    case Outside =>
      if s' == Go(s, t, GetLock) {
        KeepGo(s, t, GetLock);
      } else {
        KeepStartPut(s, t, node);
      }
    case PutRead(n) => KeepGo(s, t, PutLink(n, s.mem.inQueue));
    case PutLink(_, _) => KeepPutLink(s, t);
    case PutCas(n, seen) =>
      if s.mem.inQueue == seen {
        KeepPutCas(s, t);
      } else {
        KeepGo(s, t, PutRead(n));
      }
    case GetLock => KeepLock(s, t);
    case GetTest => KeepGo(s, t, if s.mem.outQueue == Null then GetRead else PopRead(false));
    case GetRead => KeepGo(s, t, if s.mem.inQueue == Null then PopRead(true) else GetCas(s.mem.inQueue.n));
    case GetCas(head) =>
      if s.mem.inQueue == To(head) {
        KeepSteal(s, t);
      } else {
        KeepGo(s, t, GetRead);
      }
    case RevRead(head) => KeepGo(s, t, RevLink(head, Next(s.mem, head)));
    case RevLink(_, _) => KeepRevLink(s, t);
    case RevPush(_, _) => KeepRevPush(s, t);
    case PopRead(_) => KeepGo(s, t, if s.mem.outQueue == Null then GetUnlock(Null) else PopNext(s.mem.outQueue.n));
    case PopNext(_) => KeepPop(s, t);
    case GetUnlock(_) => KeepUnlock(s, t);
  }

  ghost predicate Init(s: State) {
    && s.mem.inQueue == Null && s.mem.outQueue == Null && s.lock == None
    && s.aux == Aux([], [], [], [], [])
    && forall t :: t in s.pcs ==> s.pcs[t].Outside?
  }

  /** Which thread moves in each step, and which node its queue_put is called with if it starts one. */
  ghost predicate Steps(ss: seq<State>, tids: seq<nat>, nodes: seq<nat>) {
    && |ss| == |tids| + 1 == |nodes| + 1
    && forall i :: 0 <= i < |tids| ==> Step(ss[i], tids[i], nodes[i], ss[i + 1])
  }

  ghost predicate Run(ss: seq<State>, tids: seq<nat>, nodes: seq<nat>) {
    Steps(ss, tids, nodes) && Init(ss[0])
  }

  lemma {:induction false} RunKeepsInv(ss: seq<State>, tids: seq<nat>, nodes: seq<nat>, i: nat)
    requires Run(ss, tids, nodes) && i < |ss|
    ensures Inv(ss[i])
  {
    if i > 0 {
      RunKeepsInv(ss, tids, nodes, i - 1);
      StepKeepsInv(ss[i - 1], tids[i - 1], nodes[i - 1], ss[i]);
    } else {
      hide Hand;
      assert forall t :: t in ss[0].pcs ==> Hand(ss[0].pcs[t]) == {} by { NoHands(ss[0]); }
    }
  }

  lemma NoHands(s: State)
    requires Init(s)
    ensures forall t :: t in s.pcs ==> Hand(s.pcs[t]) == {}
  {
  }

  /** What thread t's next step does to the abstract queue: the successful compare-and-swap of a put adds the node
      at the back, taking the first node of out_queue removes the front and is what that get returns, finding
      in_queue empty happens on an empty queue, and no other step changes anything. */
  ghost predicate Refines(s: State, t: nat, s': State)
    requires t in s.pcs && t in s'.pcs
  {
    var q, q' := Contents(s.aux), Contents(s'.aux);
    match s.pcs[t]
    case PutCas(n, _) => if s'.pcs[t].Outside? then q' == q + [n] else q' == q && s'.pcs[t] == PutRead(n)
    case PopNext(n) => q == [n] + q' && s'.pcs[t] == GetUnlock(To(n))
    case GetRead => q' == q && (s'.pcs[t] == PopRead(true) ==> q == [])
    case PopRead(sawEmpty) => q' == q && (s'.pcs[t] == GetUnlock(Null) <==> sawEmpty)
    case _ => q' == q
  }

  lemma StepRefines(s: State, t: nat, node: nat, s': State)
    requires Inv(s) && Step(s, t, node, s')
    ensures Refines(s, t, s')
  {
    assert Knows(s.mem, s.aux, s.pcs[t]);
    hide Linked, Hands, Contents, PushMem, PushAux, StealMem, StealAux, RevMem, RevAux, PopMem, PopAux;
    Reads(s, t);
    match s.pcs[t]
    case PutCas(n, seen) =>
      if s.mem.inQueue == seen {
        assert n in Hand(s.pcs[t]);
        InHandNotLinked(s, t, n);
        PushShape(s.mem, s.aux, n);
      }
    case GetCas(head) =>
      if s.mem.inQueue == To(head) {
        StealShape(s.mem, s.aux, head);
      }
    case RevPush(head, _) => RevOrder(s.aux, head);
    case PopNext(head) => PopShape(s.mem, s.aux, head);
    case GetRead => EmptyContents(s.mem, s.aux);
    case _ =>
  }

  lemma InHandNotLinked(s: State, t: nat, n: nat)
    requires Hands(s.pcs, s.aux) && t in s.pcs && n in Hand(s.pcs[t])
    ensures n !in Linked(s.aux)
  {
  }

  lemma EmptyContents(m: Mem, a: Aux)
    requires Knows(m, a, GetRead) && Chain(m, m.inQueue, a.ins)
    ensures m.inQueue == Null ==> Contents(a) == []
  {
  }

  /** First in, first out: at every point of every interleaving the nodes got so far are the first ones put, each
      once and in order, and the rest is the present contents. */
  lemma Fifo(ss: seq<State>, tids: seq<nat>, nodes: seq<nat>, i: nat)
    requires Run(ss, tids, nodes) && i < |ss|
    ensures ss[i].aux.puts == ss[i].aux.gets + Contents(ss[i].aux)
    ensures i < |tids| ==> tids[i] in ss[i + 1].pcs && Refines(ss[i], tids[i], ss[i + 1])
  {
    RunKeepsInv(ss, tids, nodes, i);
    if i < |tids| {
      StepRefines(ss[i], tids[i], nodes[i], ss[i + 1]);
    }
  }

  // ---------- the mutex ----------

  /** Throughout every run the mutex is taken exactly while one thread is between lock and unlock, by that thread. */
  lemma MutexHolder(ss: seq<State>, tids: seq<nat>, nodes: seq<nat>, i: nat)
    requires Run(ss, tids, nodes) && i < |ss|
    ensures forall t :: ss[i].lock == Some(t) <==> t in ss[i].pcs && Holds(ss[i].pcs[t])
  {
    RunKeepsInv(ss, tids, nodes, i);
  }

  /** Whatever the others do, the holder of the mutex, like any thread that does not wait for it, has a step to take. */
  lemma GoesOn(s: State, t: nat) returns (s': State)
    requires Inv(s) && t in s.pcs && (s.pcs[t].GetLock? ==> s.lock == None)
    ensures Step(s, t, 0, s')
  {
    hide Inv;
    match s.pcs[t]
    case Outside => s' := Go(s, t, GetLock);
    case PutRead(n) => s' := Go(s, t, PutLink(n, s.mem.inQueue));
    case PutLink(n, seen) => s' := Go(s.(mem := PutLinkMem(s.mem, n, seen)), t, PutCas(n, seen));
    case PutCas(n, seen) =>
      s' := if s.mem.inQueue == seen then Go(s.(mem := PushMem(s.mem, n), aux := PushAux(s.aux, n)), t, Outside)
        else Go(s, t, PutRead(n));
    case GetLock => s' := Go(s.(lock := Some(t)), t, GetTest);
    case GetTest => s' := Go(s, t, if s.mem.outQueue == Null then GetRead else PopRead(false));
    case GetRead => s' := Go(s, t, if s.mem.inQueue == Null then PopRead(true) else GetCas(s.mem.inQueue.n));
    case GetCas(head) =>
      s' := if s.mem.inQueue == To(head) then
          Go(s.(mem := StealMem(s.mem), aux := StealAux(s.aux)), t, RevRead(head))
        else Go(s, t, GetRead);
    case RevRead(head) => s' := Go(s, t, RevLink(head, Next(s.mem, head)));
    case RevLink(head, rest) =>
      s' := Go(s.(mem := PutLinkMem(s.mem, head, s.mem.outQueue)), t, RevPush(head, rest));
    case RevPush(head, rest) =>
      s' := Go(s.(mem := RevMem(s.mem, head), aux := RevAux(s.aux, head)),
               t, if rest == Null then PopRead(false) else RevRead(rest.n));
    case PopRead(_) => s' := Go(s, t, if s.mem.outQueue == Null then GetUnlock(Null) else PopNext(s.mem.outQueue.n));
    case PopNext(head) =>
      s' := Go(s.(mem := PopMem(s.mem, head), aux := PopAux(s.aux, head)), t, GetUnlock(To(head)));
    case GetUnlock(_) => s' := Go(s.(lock := None), t, Outside);
  }

  /** How many steps the holder takes from here until it has given the mutex back, if no swap of its fails and no
      node is put before it has stolen the stack. */
  function ToRelease(p: Pc, a: Aux): nat {
    match p
    case GetTest => 3 * |a.ins| + 6
    case GetRead => 3 * |a.ins| + 5
    case GetCas(_) => 3 * |a.ins| + 4
    case RevRead(_) => 3 * |a.rest| + 3
    case RevLink(_, _) => 3 * |a.rest| + 2
    case RevPush(_, _) => 3 * |a.rest| + 1
    case PopRead(_) => 3
    case PopNext(_) => 2
    case GetUnlock(_) => 1
    case _ => 0
  }

  /** What a step of t adds to that: a failed swap of the holder is taken back, and a node put may have to be moved. */
  function Delay(s: State, t: nat, s': State, u: nat): nat
    requires t in s.pcs && t in s'.pcs
  {
    if t == u then (if s.pcs[t].GetCas? && s'.pcs[t].GetRead? then 2 else 0)
    else if s.pcs[t].PutCas? && s'.pcs[t].Outside? then 3
    else 0
  }

  predicate Free(s: State, u: nat) {
    s.lock == None && u in s.pcs && s.pcs[u].Outside?
  }

  lemma HolderStep(s: State, node: nat, s': State, u: nat)
    requires Inv(s) && s.lock == Some(u) && Step(s, u, node, s')
    ensures Free(s', u) ||
      (s'.lock == Some(u) && u in s'.pcs && 0 < ToRelease(s'.pcs[u], s'.aux) <=
         ToRelease(s.pcs[u], s.aux) - 1 + Delay(s, u, s', u))
  {
    HolderKnows(s, u);
    hide Inv;
    if s.pcs[u].GetTest? || s.pcs[u].GetRead? || s.pcs[u].GetCas? {
      HolderSteals(s, node, s', u);
    } else if s.pcs[u].RevRead? || s.pcs[u].RevLink? || s.pcs[u].RevPush? {
      HolderReverses(s, node, s', u);
    } else {
      HolderPops(s, node, s', u);
    }
    hide Step, Delay, ToRelease;
  }

  lemma HolderSteals(s: State, node: nat, s': State, u: nat)
    requires Step(s, u, node, s') && (s.pcs[u].GetTest? || s.pcs[u].GetRead? || s.pcs[u].GetCas?)
    ensures s'.lock == s.lock && u in s'.pcs && 0 < ToRelease(s'.pcs[u], s'.aux)
    ensures ToRelease(s'.pcs[u], s'.aux) <= ToRelease(s.pcs[u], s.aux) - 1 + Delay(s, u, s', u)
  {
    hide StealMem;
  }

  lemma HolderReverses(s: State, node: nat, s': State, u: nat)
    requires Step(s, u, node, s') && (s.pcs[u].RevRead? || s.pcs[u].RevLink? || s.pcs[u].RevPush?)
    requires s.pcs[u].RevPush? ==> s.aux.rest != []
    ensures s'.lock == s.lock && u in s'.pcs && 0 < ToRelease(s'.pcs[u], s'.aux)
    ensures ToRelease(s'.pcs[u], s'.aux) <= ToRelease(s.pcs[u], s.aux) - 1 + Delay(s, u, s', u)
  {
    hide PutLinkMem, RevMem, Next;
  }

  lemma HolderPops(s: State, node: nat, s': State, u: nat)
    requires Step(s, u, node, s') && (s.pcs[u].PopRead? || s.pcs[u].PopNext? || s.pcs[u].GetUnlock?)
    ensures Free(s', u) ||
      (s'.lock == s.lock && u in s'.pcs && 0 < ToRelease(s'.pcs[u], s'.aux) <=
         ToRelease(s.pcs[u], s.aux) - 1 + Delay(s, u, s', u))
  {
    hide PopMem;
  }

  lemma HolderKnows(s: State, u: nat)
    requires Inv(s) && s.lock == Some(u)
    ensures u in s.pcs && Holds(s.pcs[u]) && (s.pcs[u].RevPush? ==> s.aux.rest != [])
  {
    assert Knows(s.mem, s.aux, s.pcs[u]);
  }

  lemma OtherStep(s: State, t: nat, node: nat, s': State, u: nat)
    requires Inv(s) && s.lock == Some(u) && Step(s, t, node, s') && t != u
    ensures s'.lock == Some(u) && u in s.pcs && u in s'.pcs && s'.pcs[u] == s.pcs[u]
    ensures ToRelease(s'.pcs[u], s'.aux) <= ToRelease(s.pcs[u], s.aux) + Delay(s, t, s', u)
  {
    assert u in s.pcs && Holds(s.pcs[u]) && !Holds(s.pcs[t]);
    hide Inv, Knows, Shape, History, Hands, PutLinkMem;
  }

  function Own(tids: seq<nat>, u: nat): nat {
    if tids == [] then 0 else (if tids[0] == u then 1 else 0) + Own(tids[1..], u)
  }

  ghost function Delays(ss: seq<State>, tids: seq<nat>, u: nat): nat
    requires |ss| > |tids|
    decreases |tids|
  {
    if tids == [] then 0
    else
      (if tids[0] in ss[0].pcs && tids[0] in ss[1].pcs then Delay(ss[0], tids[0], ss[1], u) else 0)
        + Delays(ss[1..], tids[1..], u)
  }

  /** The steps after the first one. */
  lemma AfterFirst(ss: seq<State>, tids: seq<nat>, nodes: seq<nat>)
    requires Steps(ss, tids, nodes) && tids != []
    ensures Step(ss[0], tids[0], nodes[0], ss[1]) && tids[0] in ss[0].pcs && tids[0] in ss[1].pcs
    ensures Steps(ss[1..], tids[1..], nodes[1..])
  {
    var rest, later, ns := ss[1..], tids[1..], nodes[1..];
    assert Step(ss[0], tids[0], nodes[0], ss[1]);
    hide Step;
    assert forall i :: 0 <= i < |later| ==> rest[i] == ss[i + 1] && later[i] == tids[i + 1] && ns[i] == nodes[i + 1];
  }

  /** However the threads take turns, the mutex comes free after so many steps of the thread that holds it. */
  lemma {:induction false} MutexComesFree(ss: seq<State>, tids: seq<nat>, nodes: seq<nat>, u: nat)
    requires Steps(ss, tids, nodes) && Inv(ss[0]) && ss[0].lock == Some(u)
    ensures u in ss[0].pcs
    ensures (exists i :: 0 <= i < |ss| && Free(ss[i], u)) ||
      (ss[|tids|].lock == Some(u)
       && Own(tids, u) < ToRelease(ss[0].pcs[u], ss[0].aux) + Delays(ss, tids, u))
    decreases |tids|
  {
    HolderKnows(ss[0], u);
    if tids == [] {
      HolderHas(ss[0], u);
    } else {
      AfterFirst(ss, tids, nodes);
      StepKeepsInv(ss[0], tids[0], nodes[0], ss[1]);
      if tids[0] == u {
        HolderStep(ss[0], nodes[0], ss[1], u);
      } else {
        OtherStep(ss[0], tids[0], nodes[0], ss[1], u);
      }
      hide Inv, Step, Steps, ToRelease, Delay, Holds;
      if !Free(ss[1], u) {
        MutexComesFree(ss[1..], tids[1..], nodes[1..], u);
        assert ss[1..][|tids| - 1] == ss[|tids|];
        if i :| 0 <= i < |ss[1..]| && Free(ss[1..][i], u) {
          assert Free(ss[i + 1], u);
        }
      }
    }
  }

  lemma HolderHas(s: State, u: nat)
    requires u in s.pcs && Holds(s.pcs[u])
    ensures 0 < ToRelease(s.pcs[u], s.aux)
  {
  }

  // ---------- failed swaps ----------

  /** t's compare-and-swap in this step succeeds, or fails. */
  predicate Swaps(s: State, t: nat, s': State) {
    t in s.pcs && t in s'.pcs &&
      ((s.pcs[t].PutCas? && s'.pcs[t].Outside?) || (s.pcs[t].GetCas? && s'.pcs[t].RevRead?))
  }

  predicate SwapFails(s: State, t: nat, s': State) {
    t in s.pcs && t in s'.pcs &&
      ((s.pcs[t].PutCas? && s'.pcs[t].PutRead?) || (s.pcs[t].GetCas? && s'.pcs[t].GetRead?))
  }

  /** Step i is a successful swap of another thread. */
  predicate OtherSwaps(ss: seq<State>, tids: seq<nat>, t: nat, i: nat) {
    i + 1 < |ss| && i < |tids| && tids[i] != t && Swaps(ss[i], tids[i], ss[i + 1])
  }

  /** What t has read of in_queue and is going to compare it with. */
  function Compares(p: Pc): Option<Ptr> {
    match p
    case PutLink(_, seen) => Some(seen)
    case PutCas(_, seen) => Some(seen)
    case GetCas(head) => Some(To(head))
    case _ => None
  }

  lemma ReadStep(s: State, t: nat, node: nat, s': State)
    requires Step(s, t, node, s') && (s.pcs[t].PutRead? || s.pcs[t].GetRead?)
    ensures t in s'.pcs && (Compares(s'.pcs[t]) == None || Compares(s'.pcs[t]) == Some(s'.mem.inQueue))
  {
  }

  /** A step that leaves in_queue as it is, if it does. */
  lemma QuietStep(s: State, u: nat, node: nat, s': State, t: nat)
    requires Step(s, u, node, s') && t in s.pcs && (u == t ==> s.pcs[t].PutLink?)
    ensures t in s'.pcs && Compares(s'.pcs[t]) == Compares(s.pcs[t])
    ensures Swaps(s, u, s') || s'.mem.inQueue == s.mem.inQueue
    ensures Swaps(s, u, s') ==> u != t
  {
    hide MayPut, PushAux, StealAux, RevAux, PopAux, Next;
  }

  lemma FailStep(s: State, t: nat, node: nat, s': State)
    requires Step(s, t, node, s') && SwapFails(s, t, s')
    ensures Compares(s.pcs[t]).Some? && Compares(s.pcs[t]) != Some(s.mem.inQueue)
  {
  }

  /** If what t compares with is no longer there at the end, another thread's swap has succeeded on the way. */
  lemma {:induction false} SomeSwap(ss: seq<State>, tids: seq<nat>, nodes: seq<nat>, t: nat)
    requires Steps(ss, tids, nodes) && t in ss[0].pcs
    requires Compares(ss[0].pcs[t]) == None || Compares(ss[0].pcs[t]) == Some(ss[0].mem.inQueue)
    requires forall i :: 0 <= i < |tids| && tids[i] == t ==> t in ss[i].pcs && ss[i].pcs[t].PutLink?
    ensures (exists i: nat :: OtherSwaps(ss, tids, t, i)) ||
      var s := ss[|tids|];
      t in s.pcs && (Compares(s.pcs[t]) == None || Compares(s.pcs[t]) == Some(s.mem.inQueue))
    decreases |tids|
  {
    hide Compares, Swaps, Step;
    if tids != [] {
      AfterFirst(ss, tids, nodes);
      QuietStep(ss[0], tids[0], nodes[0], ss[1], t);
      if Swaps(ss[0], tids[0], ss[1]) {
        assert OtherSwaps(ss, tids, t, 0);
      } else {
        var rest, later := ss[1..], tids[1..];
        assert forall i :: 0 <= i < |later| ==> later[i] == tids[i + 1] && rest[i] == ss[i + 1];
        SomeSwap(rest, later, nodes[1..], t);
        if i: nat :| OtherSwaps(rest, later, t, i) {
          assert OtherSwaps(ss, tids, t, i + 1);
        }
      }
    }
  }

  lemma Middle(ss: seq<State>, tids: seq<nat>, nodes: seq<nat>, n: nat)
    requires Steps(ss, tids, nodes) && |tids| == n + 1 && n > 0
    ensures Steps(ss[1..n + 1], tids[1..n], nodes[1..n])
  {
    hide Step;
    var mid, midT, midN := ss[1..n + 1], tids[1..n], nodes[1..n];
    forall i | 0 <= i < |midT| ensures Step(mid[i], midT[i], midN[i], mid[i + 1]) {
      assert Step(ss[i + 1], tids[i + 1], nodes[i + 1], ss[i + 1 + 1]);
    }
  }

  /** No swap fails for nothing: between the reading of in_queue and the swap that fails, a swap of another thread
      has succeeded, so that some queue_put or queue_get gets on in any case. */
  lemma FailureIsProgress(ss: seq<State>, tids: seq<nat>, nodes: seq<nat>, n: nat)
    requires Steps(ss, tids, nodes) && |tids| == n + 1 && n > 0
    requires var t := tids[0];
      && t in ss[0].pcs && (ss[0].pcs[t].PutRead? || ss[0].pcs[t].GetRead?)
      && tids[n] == t && SwapFails(ss[n], t, ss[n + 1])
      && forall i :: 0 < i < n && tids[i] == t ==> t in ss[i].pcs && ss[i].pcs[t].PutLink?
    ensures exists i: nat :: 0 < i < n && OtherSwaps(ss, tids, tids[0], i)
  {
    hide Compares, Swaps, Step, SwapFails;
    var t := tids[0];
    AfterFirst(ss, tids, nodes);
    ReadStep(ss[0], t, nodes[0], ss[1]);
    FailStep(ss[n], t, nodes[n], ss[n + 1]);
    var mid, midT, midN := ss[1..n + 1], tids[1..n], nodes[1..n];
    Middle(ss, tids, nodes, n);
    assert forall i :: 0 <= i < |midT| ==> mid[i] == ss[i + 1] && midT[i] == tids[i + 1];
    assert mid[|midT|] == ss[n];
    SomeSwap(mid, midT, midN, t);
    var i: nat :| OtherSwaps(mid, midT, t, i);
    assert OtherSwaps(ss, tids, t, i + 1);
  }
}
