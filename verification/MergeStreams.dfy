/** blkparse's list of streams as it is linked in memory, and the loop of do_file over it. */
module MergeStreams {

  import opened Words
  import opened Seqs
  import opened Merge

  /** struct ms_stream, with its chain of buffered traces as queue and what is left in its file as rest. */
  class Stream {
    const id: nat
    var next: Stream?
    var queue: seq<Trace>
    var rest: seq<Trace>

    constructor (id: nat, file: seq<Trace>)
      ensures this.id == id && next == null && queue == [] && rest == file
      ensures View() == Source(id, file)
    {
      this.id, next, queue, rest := id, null, [], file;
      new;
      assert [] + file == file;
    }

    ghost function View(): (r: Source)
      reads this`queue, this`rest
      ensures queue != [] ==> Head(r) == queue[0].time && r.pending != []
    {
      Source(id, queue + rest)
    }

    /** ms_prime, as a source of batches. */
    method Prime(batch: nat) returns (ndone: nat)
      requires batch > 0
      modifies this`queue, this`rest
      ensures View() == old(View())
      ensures ndone > 0 <==> old(rest) != []
      ensures ndone > 0 ==> queue != []
      ensures ndone == 0 ==> queue == old(queue)
    {
      ndone := if |rest| < batch then |rest| else batch;
      assert rest == rest[..ndone] + rest[ndone..];
      queue, rest := queue + rest[..ndone], rest[ndone..];
    }

    /** Take the first trace away; more says whether the stream has another. */
    method Pop(batch: nat) returns (more: bool)
      requires batch > 0 && queue != []
      modifies this`queue, this`rest
      ensures View() == old(View()).(pending := old(View()).pending[1..])
      ensures more <==> View().pending != []
      ensures more ==> queue != []
    {
      assert (queue + rest)[1..] == queue[1..] + rest;
      queue := queue[1..];
      more := true;
      if queue == [] {
        var ndone := Prime(batch);
        more := ndone > 0;
      }
    }
  }

  /** head leads through next over the streams of list and no others. */
  ghost predicate Linked(head: Stream?, list: seq<Stream>)
    reads list`next
  {
    && head == (if list == [] then null else list[0])
    && NoDup(list)
    && (forall i :: 0 <= i < |list| ==> list[i].next == Following(list, i))
  }

  ghost function Following(list: seq<Stream>, i: nat): Stream? {
    if i + 1 < |list| then list[i + 1] else null
  }

  lemma FollowingInsert(was: seq<Stream>, msp: Stream, k: nat, i: nat)
    requires 0 < k <= |was| && i <= |was|
    ensures var now := was[..k] + [msp] + was[k..];
      && now[i] == (if i < k then was[i] else if i == k then msp else was[i - 1])
      && Following(now, i) == (if i + 1 == k then msp else if i < k then Following(was, i) else Following(was, i - 1))
  {
  }

  lemma InsertNoDup(was: seq<Stream>, msp: Stream, k: nat)
    requires k <= |was| && msp !in was && NoDup(was)
    ensures NoDup(was[..k] + [msp] + was[k..])
  {
  }

  ghost predicate Primed(list: seq<Stream>)
    reads list`queue
  {
    forall i :: 0 <= i < |list| ==> list[i].queue != []
  }

  ghost function Views(list: seq<Stream>): (r: seq<Source>)
    reads list`queue, list`rest
    ensures |r| == |list| && forall i :: 0 <= i < |list| ==> r[i] == list[i].View()
  {
    if list == [] then [] else [list[0].View()] + Views(list[1..])
  }

  lemma {:induction false} ViewsJoin(a: seq<Stream>, b: seq<Stream>)
    ensures Views(a + b) == Views(a) + Views(b)
  {
    hide Stream.View;
    if a == [] {
      assert a + b == b;
    } else {
      assert (a + b)[1..] == a[1..] + b;
      ViewsJoin(a[1..], b);
    }
  }

  lemma ViewsInsert(list: seq<Stream>, msp: Stream, k: nat)
    requires k <= |list|
    ensures Views(list[..k] + [msp] + list[k..]) == Views(list)[..k] + [msp.View()] + Views(list)[k..]
  {
    ViewsOne(msp);
    hide Stream.View, Views;
    ViewsJoin(list[..k] + [msp], list[k..]);
    ViewsJoin(list[..k], [msp]);
    ViewsJoin(list[..k], list[k..]);
    assert list == list[..k] + list[k..];
  }

  lemma ViewsOne(msp: Stream)
    ensures Views([msp]) == [msp.View()]
  {
    assert |[msp][1..]| == 0;
  }

  lemma LinkedTail(head: Stream?, list: seq<Stream>)
    requires Linked(head, list) && list != []
    ensures Linked(list[0].next, list[1..]) && list[0] !in list[1..] && Views(list[1..]) == Views(list)[1..]
  {
  }

  lemma DeqCases(src: seq<Source>)
    requires src != [] && src[0].pending != []
    ensures var x := src[0].(pending := src[0].pending[1..]);
      Merge.Deq(src) == if x.pending == [] then src[1..] else Merge.Resort(x, src[1..])
  {
  }

  lemma FirstPrimed(list: seq<Stream>)
    requires Primed(list) && list != []
    ensures list[0].queue != [] && Views(list) != [] && Views(list)[0] == list[0].View()
  {
  }

  lemma Placed(was: seq<Stream>, now: seq<Stream>, msp: Stream, k: nat)
    requires Primed(was) && msp.queue != [] && k <= |was| && now == was[..k] + [msp] + was[k..]
    requires k == Spot(Views(was), Head(msp.View()))
    ensures Primed(now) && Views(now) == Place(Views(was), msp.View())
    ensures forall s :: s in now <==> s in was || s == msp
  {
    hide Views, Spot, Stream.View;
    ViewsInsert(was, msp, k);
    assert was == was[..k] + was[k..];
    forall s ensures s in now <==> s in was || s == msp {
    }
  }

  lemma HeadOfList(head: Stream?, list: seq<Stream>)
    requires Linked(head, list)
    ensures head == (if list == [] then null else list[0])
  {
  }

  lemma ViewTime(s: Stream)
    requires s.queue != []
    ensures Head(s.View()) == s.queue[0].time
  {
  }

  lemma RebaseHead(src: seq<Source>, t: Trace, queue: seq<Trace>)
    requires src != [] && src[0].pending == queue != []
    ensures var x := src[0].(pending := [t] + queue[1..]);
      Merge.Deq([x] + src[1..]) == Merge.Deq(src)
  {
    var x := src[0].(pending := [t] + queue[1..]);
    assert ([x] + src[1..])[1..] == src[1..];
    assert x.pending[1..] == queue[1..];
  }

  class Streams {
    var head: Stream?
    const batch: nat
    ghost var list: seq<Stream>

    constructor (batch: nat)
      requires batch > 0
      ensures Valid() && list == [] && Sources() == [] && this.batch == batch
    {
      this.batch, head, list := batch, null, [];
    }

    ghost predicate Valid()
      reads this, list`next, list`queue
    {
      batch > 0 && Linked(head, list) && Primed(list)
    }

    ghost function Sources(): seq<Source>
      reads this, list`queue, list`rest
    {
      Views(list)
    }

    /** The loop of ms_sort: the stream after which one with time t belongs. */
    method FindSpot(t: int) returns (before: Stream, ghost k: nat)
      requires Valid() && head != null && head.queue[0].time <= t
      ensures 0 < k <= |list| && before == list[k - 1] && k == Spot(Sources(), t)
      ensures before in list && (before.next != null ==> before.next.queue[0].time >= t)
    {
      ghost var src := Sources();
      before, k := head, 0;
      while before.next != null && before.next.queue[0].time < t
        invariant k < |list| && before == list[k] && After(src, t, k) == After(src, t, 0)
        decreases |list| - k
      {
        before, k := before.next, k + 1;
      }
      k := k + 1;
    }

    method LinkFirst(msp: Stream)
      requires Linked(head, list) && msp !in list
      modifies this, msp`next
      ensures list == [msp] + old(list) && Linked(head, list)
    {
      msp.next := head;
      head := msp;
      list := [msp] + list;
    }

    method LinkAfter(msp: Stream, before: Stream, ghost k: nat)
      requires Linked(head, list) && msp !in list && 0 < k <= |list| && before == list[k - 1]
      modifies this`list, msp`next, before`next
      ensures list == old(list)[..k] + [msp] + old(list)[k..] && Linked(head, list)
    {
      ghost var was, now := list, list[..k] + [msp] + list[k..];
      msp.next := before.next;
      before.next := msp;
      list := now;
      forall i | 0 <= i < |now| ensures now[i].next == Following(now, i) {
        FollowingInsert(was, msp, k, i);
      }
      InsertNoDup(was, msp, k);
    }

    method Sort(msp: Stream)
      requires Valid() && msp !in list && msp.queue != [] && msp.next == null
      modifies this, msp`next, list`next
      ensures Valid() && Sources() == Place(old(Sources()), old(msp.View()))
      ensures forall s :: s in list <==> s in old(list) || s == msp
    {
      hide Linked, Stream.View, Views, Primed, Place;
      var t := msp.queue[0].time;
      ghost var k := 0;
      ghost var was := list;
      HeadOfList(head, list);
      if list != [] {
        FirstPrimed(list);
      }
      assert t == Head(msp.View()) by { ViewTime(msp); }
      if head == null {
        LinkFirst(msp);
      } else {
        ViewTime(head);
        if t < head.queue[0].time {
          LinkFirst(msp);
        } else {
          var before;
          before, k := FindSpot(t);
          LinkAfter(msp, before, k);
        }
      }
      Placed(was, list, msp, k);
    }

    /** msp is the first stream, its queue possibly changed since it was put there. */
    method Resort(msp: Stream)
      requires Valid() && list != [] && msp == list[0]
      modifies this, list`next
      ensures Valid() && Sources() == Merge.Resort(old(msp.View()), old(Sources())[1..])
      ensures forall s :: s in list <==> s in old(list)
    {
      hide Linked, Views, Place, Stream.View;
      LinkedTail(head, list);
      FirstPrimed(list);
      ViewTime(msp);
      HeadOfList(head, list);
      HeadOfList(msp.next, list[1..]);
      if msp.next != null {
        ViewTime(msp.next);
        FirstPrimed(list[1..]);
      }
      if msp.next != null && msp.queue[0].time > msp.next.queue[0].time {
        DropFirst(msp);
        Sort(msp);
      }
    }

    method DropFirst(msp: Stream)
      requires Linked(head, list) && list != [] && msp == list[0]
      modifies this, msp`next
      ensures list == old(list)[1..] && Linked(head, list) && msp.next == null && msp !in list
      ensures Views(list) == old(Views(list))[1..]
    {
      LinkedTail(head, list);
      hide Linked, Views;
      head := msp.next;
      msp.next := null;
      list := list[1..];
    }

    method Deq(msp: Stream)
      requires Valid() && list != [] && msp == list[0]
      modifies this, list`next, msp`queue, msp`rest
      ensures Valid() && Sources() == Merge.Deq(old(Sources()))
      ensures forall i :: 0 <= i < |list| ==> list[i] in old(list)
    {
      hide Linked, Stream.View, Views, Merge.Deq, Merge.Resort;
      FirstPrimed(list);
      DeqCases(Views(list));
      LinkedTail(head, list);
      var more := msp.Pop(batch);
      assert Views(list[1..]) == old(Views(list))[1..];
      LinkedTail(head, list);
      if more {
        Resort(msp);
      } else {
        DropFirst(msp);
      }
    }

    /** ms_alloc */
    method Alloc(id: nat, file: seq<Trace>)
      requires Valid()
      modifies this, list
      ensures Valid()
      ensures Sources() == if file == [] then old(Sources()) else Place(old(Sources()), Source(id, file))
      ensures forall i :: 0 <= i < |list| ==> list[i] in old(list) || fresh(list[i])
    {
      hide Linked, Stream.View, Place, Views;
      var msp := new Stream(id, file);
      var ndone := msp.Prime(batch);
      if ndone > 0 {
        Sort(msp);
      }
    }

    /** handle: the time of the first trace is rebased in place before the window is looked at. */
    method Handle(msp: Stream, genesis: U64, start: U64, end: U64) returns (goOn: bool, shown: seq<Event>)
      requires Valid() && list != [] && msp == list[0]
      modifies this, list
      ensures goOn == !Stops(old(Sources()), genesis, end)
      ensures goOn ==> Valid() && Sources() == Merge.Deq(old(Sources()))
      ensures shown == if goOn then Shown([old(Event(msp.id, msp.queue[0]))], genesis, start) else []
      ensures forall i :: 0 <= i < |list| ==> list[i] in old(list)
    {
      hide Linked, Views, Merge.Deq, Shown;
      FirstPrimed(list);
      ShownOne(Event(msp.id, msp.queue[0]), genesis, start);
      var t := Rebase(msp.queue[0], genesis);
      RebaseHead(Views(list), t, msp.queue + msp.rest);
      LinkedTail(head, list);
      assert ([t] + msp.queue[1..]) + msp.rest == [t] + (msp.queue + msp.rest)[1..];
      msp.queue := [t] + msp.queue[1..];
      assert Views(list[1..]) == old(Views(list))[1..];
      LinkedTail(head, list);
      FirstPrimed(list);
      assert Views(list) == [msp.View()] + Views(list)[1..];
      goOn, shown := false, [];
      if t.time <= end {
        if t.wanted && t.time >= start {
          shown := [Event(msp.id, t)];
        }
        goOn := true;
        Deq(msp);
      }
    }
  }

  lemma HeadFacts(ms: Streams)
    requires ms.Valid()
    ensures ms.head == null <==> ms.list == []
    ensures ms.list != [] ==> ms.head == ms.list[0] && ms.head.queue != [] && ms.Sources() != []
    ensures ms.list != [] ==> ms.Sources()[0] == ms.head.View()
    ensures ms.list == [] ==> ms.Sources() == []
  {
  }

  lemma LoadNext(files: seq<seq<Trace>>, n: nat)
    ensures Load(files, 0) == []
    ensures n < |files| ==>
      Load(files, n + 1) == if files[n] == [] then Load(files, n) else Place(Load(files, n), Source(n, files[n]))
  {
  }

  /** Every file gets its stream, unless it is empty. */
  method SetUp(files: seq<seq<Trace>>, batch: nat) returns (ms: Streams)
    requires batch > 0
    ensures fresh(ms) && forall i :: 0 <= i < |ms.list| ==> fresh(ms.list[i])
    ensures ms.Valid() && ms.Sources() == Load(files, |files|)
  {
    hide Streams.Valid, Streams.Sources, Place, Load, Linked, Primed, Views;
    assert Load(files, 0) == [] by { LoadNext(files, 0); }
    ms := new Streams(batch);
    var n := 0;
    while n < |files|
      invariant n <= |files| && fresh(ms) && forall i :: 0 <= i < |ms.list| ==> fresh(ms.list[i])
      invariant ms.Valid() && ms.Sources() == Load(files, n)
    {
      LoadNext(files, n);
      ms.Alloc(n, files[n]);
      n := n + 1;
    }
  }

  /** The loop of do_file. */
  method HandleAll(ms: Streams, genesis: U64, start: U64, end: U64) returns (shown: seq<Event>)
    requires ms.Valid() && Kept(ms.Sources())
    modifies ms, ms.list
    ensures shown == Shown(Handled(old(ms.Sources()), genesis, end), genesis, start)
  {
    hide Streams.Valid, Merge.Deq, Shown, Kept, Streams.Sources;
    shown := [];
    ghost var src := ms.Sources();
    ghost var all := Shown(Handled(src, genesis, end), genesis, start);
    HeadFacts(ms);
    while ms.head != null
      invariant ms.Valid() && src == ms.Sources() && Kept(src)
      invariant forall i :: 0 <= i < |ms.list| ==> ms.list[i] in old(ms.list)
      invariant all == shown + Shown(Handled(src, genesis, end), genesis, start)
      decreases Total(src)
    {
      HeadFacts(ms);
      NotStopping(src, genesis, start, end);
      var goOn, s := ms.Handle(ms.head, genesis, start, end);
      shown := shown + s;
      if !goOn {
        return;
      }
      src := Merge.Deq(src);
    }
    HeadFacts(ms);
    NotStopping(src, genesis, start, end);
  }

  lemma NotStopping(src: seq<Source>, genesis: U64, start: U64, end: U64)
    requires Kept(src)
    ensures Stops(src, genesis, end) ==> Shown(Handled(src, genesis, end), genesis, start) == []
    ensures src == [] ==> Stops(src, genesis, end)
    ensures !Stops(src, genesis, end) ==>
      && src != [] && src[0].pending != [] && Kept(Merge.Deq(src)) && Total(Merge.Deq(src)) < Total(src)
      && Shown(Handled(src, genesis, end), genesis, start)
         == Shown([Event(src[0].id, src[0].pending[0])], genesis, start)
            + Shown(Handled(Merge.Deq(src), genesis, end), genesis, start)
  {
    if !Stops(src, genesis, end) {
      HandledStep(src, genesis, start, end);
    }
  }

  /** Of each file exactly the wanted traces of the window that is counted from the earliest trace of all files. */
  ghost predicate ShowsWindow(files: seq<seq<Trace>>, shown: seq<Event>, start: U64, end: U64) {
    exists g: U64 :: Earliest(files, g) &&
      forall id :: 0 <= id < |files| ==> From(shown, id) == InWindow(files[id], g, start, end)
  }

  lemma FilesShown(files: seq<seq<Trace>>, start: U64, end: U64, shown: seq<Event>)
    requires SortedFiles(files) && Kept(Load(files, |files|))
    requires shown == Shown(Handled(Load(files, |files|), Genesis(files), end), Genesis(files), start)
    ensures if AllEmpty(files) then shown == [] else ShowsWindow(files, shown, start, end)
  {
    var g := Genesis(files);
    GenesisIsEarliest(files);
    if !AllEmpty(files) {
      hide Handled, Shown, Kept, SortedFiles, InTime, From, InWindow, Earliest, AllEmpty, Genesis;
      forall id | 0 <= id < |files| ensures From(shown, id) == InWindow(files[id], g, start, end) {
        ShownPerFile(files, start, end, id, g);
      }
    }
  }

  /** do_file on the traces of the files, with its stopwatch window: what is shown. When the files are sorted
      this is in order of time, and of each file the wanted traces of the window, each once. */
  method DoFile(files: seq<seq<Trace>>, batch: nat, start: U64, end: U64) returns (shown: seq<Event>)
    requires batch > 0
    ensures Kept(Load(files, |files|))
    ensures shown == Shown(Handled(Load(files, |files|), Genesis(files), end), Genesis(files), start)
    ensures SortedFiles(files) ==> InTime(shown)
    ensures SortedFiles(files) ==> if AllEmpty(files) then shown == [] else ShowsWindow(files, shown, start, end)
  {
    hide Streams.Valid, Handled, Shown, Kept, SortedFiles, InTime, AllEmpty, ShowsWindow;
    LoadKept(files, |files|);
    var ms := SetUp(files, batch);
    HeadFacts(ms);
    var genesis: U64 := 0;
    if ms.head != null {
      genesis := ms.head.queue[0].time;
    }
    shown := HandleAll(ms, genesis, start, end);
    if SortedFiles(files) {
      ShownSorted(files, start, end);
      FilesShown(files, start, end, shown);
    }
  }
}
