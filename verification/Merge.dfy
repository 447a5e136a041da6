/** blkparse's merge of per-CPU trace streams, on values: a list of sources ordered by the time of their next trace. */
module Merge {

  import opened Words

  /** wanted says whether the trace passes the action mask. */
  datatype Trace = Trace(time: U64, wanted: bool)

  /** What is still to come from the stream of one device and CPU. */
  datatype Source = Source(id: nat, pending: seq<Trace>)

  /** A trace together with the stream it came from. */
  datatype Event = Event(id: nat, trace: Trace)

  ghost predicate NonEmpty(list: seq<Source>) {
    forall i :: 0 <= i < |list| ==> list[i].pending != []
  }

  function Head(s: Source): int {
    if s.pending == [] then 0 else s.pending[0].time
  }

  ghost predicate Ordered(list: seq<Source>) {
    forall i, j :: 0 <= i < j < |list| ==> Head(list[i]) <= Head(list[j])
  }

  ghost predicate Distinct(list: seq<Source>) {
    forall i, j :: 0 <= i < j < |list| ==> list[i].id != list[j].id
  }

  ghost predicate NotIn(id: nat, list: seq<Source>) {
    forall i :: 0 <= i < |list| ==> list[i].id != id
  }

  // ---------- one step ----------

  /** Where the loop of ms_sort stops, from position i on. */
  function After(list: seq<Source>, t: int, i: nat): (k: nat)
    requires i < |list|
    ensures i < k <= |list|
    decreases |list| - i
  {
    if i + 1 < |list| && Head(list[i + 1]) < t then After(list, t, i + 1) else i + 1
  }

  /** ms_sort */
  function Spot(list: seq<Source>, t: int): (k: nat)
    ensures k <= |list|
  {
    if list == [] || t < Head(list[0]) then 0 else After(list, t, 0)
  }

  function Place(list: seq<Source>, x: Source): seq<Source> {
    var k := Spot(list, Head(x));
    list[..k] + [x] + list[k..]
  }

  /** ms_resort, on a list whose first source is x. */
  function Resort(x: Source, others: seq<Source>): seq<Source> {
    if others != [] && Head(x) > Head(others[0]) then Place(others, x) else [x] + others
  }

  /** ms_deq */
  function Deq(list: seq<Source>): seq<Source>
    requires list != [] && list[0].pending != []
  {
    var x := list[0].(pending := list[0].pending[1..]);
    if x.pending == [] then list[1..] else Resort(x, list[1..])
  }

  function Total(list: seq<Source>): nat {
    if list == [] then 0 else |list[0].pending| + Total(list[1..])
  }

  /** What is pending from one stream. */
  ghost function Pending(list: seq<Source>, id: nat): seq<Trace> {
    if list == [] then [] else if list[0].id == id then list[0].pending else Pending(list[1..], id)
  }

  lemma {:induction false} AfterOrdered(list: seq<Source>, t: int, i: nat)
    requires Ordered(list) && i < |list| && Head(list[i]) <= t
    ensures var k := After(list, t, i);
      (forall j :: 0 <= j < k ==> Head(list[j]) <= t) && (k < |list| ==> t <= Head(list[k]))
    decreases |list| - i
  {
    if i + 1 < |list| && Head(list[i + 1]) < t {
      AfterOrdered(list, t, i + 1);
    }
  }

  lemma PlaceOrdered(list: seq<Source>, x: Source)
    requires Ordered(list)
    ensures Ordered(Place(list, x))
  {
    if list != [] && Head(list[0]) <= Head(x) {
      AfterOrdered(list, Head(x), 0);
    }
    Inserted(list, x, Spot(list, Head(x)));
  }

  lemma Inserted(list: seq<Source>, x: Source, k: nat)
    requires Ordered(list) && k <= |list|
    requires forall j :: 0 <= j < k ==> Head(list[j]) <= Head(x)
    requires k < |list| ==> Head(x) <= Head(list[k])
    ensures Ordered(list[..k] + [x] + list[k..])
  {
    var r := list[..k] + [x] + list[k..];
    forall i, j | 0 <= i < j < |r| ensures Head(r[i]) <= Head(r[j]) {
    }
  }

  lemma {:induction false} PendingOf(list: seq<Source>, id: nat)
    ensures NotIn(id, list) ==> Pending(list, id) == []
    ensures Distinct(list) ==> forall i :: 0 <= i < |list| && list[i].id == id ==> Pending(list, id) == list[i].pending
  {
    if list != [] {
      PendingOf(list[1..], id);
      assert forall i :: 1 <= i < |list| ==> list[i] == list[1..][i - 1];
    }
  }

  lemma {:induction false} PendingInsert(list: seq<Source>, x: Source, k: nat, id: nat)
    requires k <= |list| && NotIn(x.id, list)
    ensures Pending(list[..k] + [x] + list[k..], id) == if id == x.id then x.pending else Pending(list, id)
  {
    var r := list[..k] + [x] + list[k..];
    if k == 0 {
      assert r[1..] == list;
    } else {
      assert r[1..] == list[1..][..k - 1] + [x] + list[1..][k - 1..];
      PendingInsert(list[1..], x, k - 1, id);
    }
  }

  lemma {:induction false} TotalInsert(list: seq<Source>, x: Source, k: nat)
    requires k <= |list|
    ensures Total(list[..k] + [x] + list[k..]) == Total(list) + |x.pending|
  {
    var r := list[..k] + [x] + list[k..];
    if k == 0 {
      assert r[1..] == list;
    } else {
      assert r[1..] == list[1..][..k - 1] + [x] + list[1..][k - 1..];
      TotalInsert(list[1..], x, k - 1);
    }
  }

  /** A list as blkparse keeps it: each stream at most once, none exhausted, in the order of their next traces. */
  ghost predicate Kept(list: seq<Source>) {
    NonEmpty(list) && Ordered(list) && Distinct(list)
  }

  lemma PlaceKept(list: seq<Source>, x: Source)
    requires Kept(list) && NotIn(x.id, list) && x.pending != []
    ensures Kept(Place(list, x)) && Total(Place(list, x)) == Total(list) + |x.pending|
    ensures forall id :: NotIn(id, list) && id != x.id ==> NotIn(id, Place(list, x))
  {
    hide Ordered, Spot, Head, Total;
    PlaceOrdered(list, x);
    TotalInsert(list, x, Spot(list, Head(x)));
    InsertedDistinct(list, x, Spot(list, Head(x)));
  }

  lemma InsertedDistinct(list: seq<Source>, x: Source, k: nat)
    requires NonEmpty(list) && Distinct(list) && NotIn(x.id, list) && x.pending != [] && k <= |list|
    ensures var r := list[..k] + [x] + list[k..];
      NonEmpty(r) && Distinct(r) && forall id :: NotIn(id, list) && id != x.id ==> NotIn(id, r)
  {
    var r := list[..k] + [x] + list[k..];
    assert forall i :: 0 <= i < |r| ==> r[i] == if i < k then list[i] else if i == k then x else list[i - 1];
  }

  lemma PlacePending(list: seq<Source>, x: Source, id: nat)
    requires NotIn(x.id, list)
    ensures Pending(Place(list, x), id) == if id == x.id then x.pending else Pending(list, id)
  {
    PendingInsert(list, x, Spot(list, Head(x)), id);
  }

  /** Dequeueing the first trace leaves a well-kept list. */
  lemma DeqKept(list: seq<Source>)
    requires list != [] && Kept(list)
    ensures Kept(Deq(list)) && Total(Deq(list)) == Total(list) - 1
  {
    hide Place;
    var x := list[0].(pending := list[0].pending[1..]);
    TailKept(list);
    if x.pending != [] {
      if |list| > 1 && Head(x) > Head(list[1]) {
        PlaceKept(list[1..], x);
      } else {
        FrontKept(x, list[1..]);
      }
    }
  }

  lemma TailKept(list: seq<Source>)
    requires list != [] && Kept(list)
    ensures Kept(list[1..]) && NotIn(list[0].id, list[1..])
  {
  }

  lemma FrontKept(x: Source, rest: seq<Source>)
    requires Kept(rest) && NotIn(x.id, rest) && x.pending != [] && (rest != [] ==> Head(x) <= Head(rest[0]))
    ensures Kept([x] + rest) && Total([x] + rest) == |x.pending| + Total(rest)
  {
    var r := [x] + rest;
    assert r[1..] == rest;
    assert forall i :: 0 < i < |r| ==> r[i] == rest[i - 1];
  }

  lemma PendingFirst(x: Source, rest: seq<Source>, id: nat)
    ensures Pending([x] + rest, id) == if x.id == id then x.pending else Pending(rest, id)
  {
    assert ([x] + rest)[1..] == rest;
  }

  /** It takes that trace from its own stream and leaves the others alone. */
  lemma DeqPending(list: seq<Source>, id: nat)
    requires list != [] && Kept(list)
    ensures Pending(list, id)
         == (if id == list[0].id then [list[0].pending[0]] else []) + Pending(Deq(list), id)
  {
    TailKept(list);
    PendingOf(list[1..], list[0].id);
    var x, rest := list[0].(pending := list[0].pending[1..]), list[1..];
    assert list == [list[0]] + rest && list[0].pending == [list[0].pending[0]] + x.pending;
    PendingFirst(list[0], rest, id);
    PendingFirst(x, rest, id);
    hide Pending, Place, Kept;
    if x.pending != [] && rest != [] && Head(x) > Head(rest[0]) {
      PlacePending(rest, x, id);
    }
  }

  // ---------- the whole loop ----------

  /** handle: stop at the first trace past the end of the stopwatch window. */
  predicate Stops(list: seq<Source>, genesis: U64, end: U64) {
    list == [] || list[0].pending == [] || Minus(list[0].pending[0].time, genesis) > end
  }

  /** The traces handled, in order. */
  ghost function Handled(list: seq<Source>, genesis: U64, end: U64): seq<Event>
    requires Kept(list)
    decreases Total(list)
  {
    if Stops(list, genesis, end) then []
    else
      DeqKept(list);
      [Event(list[0].id, list[0].pending[0])] + Handled(Deq(list), genesis, end)
  }

  /** The list when the loop stops. */
  ghost function Rest(list: seq<Source>, genesis: U64, end: U64): (r: seq<Source>)
    requires Kept(list)
    ensures Kept(r) && Stops(r, genesis, end)
    decreases Total(list)
  {
    if Stops(list, genesis, end) then list
    else
      DeqKept(list);
      Rest(Deq(list), genesis, end)
  }

  /** The handled traces that came from one stream. */
  ghost function From(out: seq<Event>, id: nat): seq<Trace> {
    if out == [] then []
    else (if out[0].id == id then [out[0].trace] else []) + From(out[1..], id)
  }

  ghost predicate NonDecreasing(s: seq<Trace>) {
    forall i, j :: 0 <= i < j < |s| ==> s[i].time <= s[j].time
  }

  ghost predicate InTime(out: seq<Event>) {
    forall i, j :: 0 <= i < j < |out| ==> out[i].trace.time <= out[j].trace.time
  }

  /** One turn of the loop. */
  lemma OneTurn(list: seq<Source>, genesis: U64, end: U64)
    requires Kept(list) && !Stops(list, genesis, end)
    ensures Kept(Deq(list)) && Total(Deq(list)) < Total(list) && list != [] && list[0].pending != []
    ensures Handled(list, genesis, end)
         == [Event(list[0].id, list[0].pending[0])] + Handled(Deq(list), genesis, end)
    ensures Rest(list, genesis, end) == Rest(Deq(list), genesis, end)
  {
    DeqKept(list);
  }

  lemma FromFirst(e: Event, later: seq<Event>, id: nat)
    ensures From([e] + later, id) == (if e.id == id then [e.trace] else []) + From(later, id)
  {
    assert ([e] + later)[1..] == later;
  }

  lemma NoTurn(list: seq<Source>, genesis: U64, end: U64)
    requires Kept(list) && Stops(list, genesis, end)
    ensures Handled(list, genesis, end) == [] && Rest(list, genesis, end) == list
  {
  }

  /** An interleaving: each stream's traces come out in their order, and none is lost or made up. */
  lemma {:induction false} Interleaving(list: seq<Source>, genesis: U64, end: U64, id: nat)
    requires Kept(list)
    ensures From(Handled(list, genesis, end), id) + Pending(Rest(list, genesis, end), id) == Pending(list, id)
    decreases Total(list)
  {
    hide Handled, Rest, Deq, Kept, Pending, Total, Stops;
    if Stops(list, genesis, end) {
      NoTurn(list, genesis, end);
    } else {
      OneTurn(list, genesis, end);
      DeqPending(list, id);
      Interleaving(Deq(list), genesis, end, id);
      FromFirst(Event(list[0].id, list[0].pending[0]), Handled(Deq(list), genesis, end), id);
    }
  }

  /** Every pending trace is at least as late as t. */
  ghost predicate NotBefore(list: seq<Source>, t: int) {
    forall i, j :: 0 <= i < |list| && 0 <= j < |list[i].pending| ==> t <= list[i].pending[j].time
  }

  ghost predicate AllSorted(list: seq<Source>) {
    forall i :: 0 <= i < |list| ==> NonDecreasing(list[i].pending)
  }

  lemma HeadIsEarliest(list: seq<Source>)
    requires list != [] && Kept(list) && AllSorted(list)
    ensures NotBefore(list, Head(list[0]))
  {
    forall i, j | 0 <= i < |list| && 0 <= j < |list[i].pending|
      ensures Head(list[0]) <= list[i].pending[j].time
    {
      assert Head(list[0]) <= Head(list[i]);
    }
  }

  lemma DeqSorted(list: seq<Source>)
    requires list != [] && Kept(list) && AllSorted(list)
    ensures AllSorted(Deq(list)) && NotBefore(Deq(list), Head(list[0]))
  {
    assert list[0].pending != [];
    DeqMembers(list);
    hide Deq, Kept, NonDecreasing, Head;
    forall i | 0 <= i < |Deq(list)|
      ensures NonDecreasing(Deq(list)[i].pending)
      ensures forall j :: 0 <= j < |Deq(list)[i].pending| ==> Head(list[0]) <= Deq(list)[i].pending[j].time
    {
      SourceSorted(list, Deq(list)[i]);
    }
  }

  lemma SourceSorted(list: seq<Source>, s: Source)
    requires list != [] && Kept(list) && AllSorted(list)
    requires s == list[0].(pending := list[0].pending[1..]) || s in list
    ensures NonDecreasing(s.pending) && forall j :: 0 <= j < |s.pending| ==> Head(list[0]) <= s.pending[j].time
  {
    HeadIsEarliest(list);
    FromRest(list[0].pending);
  }

  lemma FromRest(s: seq<Trace>)
    requires NonDecreasing(s) && s != []
    ensures NonDecreasing(s[1..]) && forall j :: 0 <= j < |s[1..]| ==> s[0].time <= s[1..][j].time
  {
  }

  lemma DeqMembers(list: seq<Source>)
    requires list != [] && list[0].pending != []
    ensures forall s :: s in Deq(list) ==> s == list[0].(pending := list[0].pending[1..]) || s in list
  {
  }

  /** From sorted streams the traces come out in non-decreasing time, none before t. */
  lemma {:induction false} ComesOutInTime(list: seq<Source>, genesis: U64, end: U64, t: int)
    requires Kept(list) && AllSorted(list) && NotBefore(list, t)
    ensures var out := Handled(list, genesis, end);
      InTime(out) && forall i :: 0 <= i < |out| ==> t <= out[i].trace.time
    decreases Total(list)
  {
    if !Stops(list, genesis, end) {
      DeqKept(list);
      DeqSorted(list);
      ComesOutInTime(Deq(list), genesis, end, Head(list[0]));
      assert t <= list[0].pending[0].time;
    }
  }

  lemma {:induction false} RestSorted(list: seq<Source>, genesis: U64, end: U64)
    requires Kept(list) && AllSorted(list)
    ensures AllSorted(Rest(list, genesis, end))
    decreases Total(list)
  {
    if !Stops(list, genesis, end) {
      DeqKept(list);
      DeqSorted(list);
      RestSorted(Deq(list), genesis, end);
    }
  }

  lemma {:induction false} HandledInWindow(list: seq<Source>, genesis: U64, end: U64)
    requires Kept(list)
    ensures forall e :: e in Handled(list, genesis, end) ==> Minus(e.trace.time, genesis) <= end
    decreases Total(list)
  {
    if !Stops(list, genesis, end) {
      DeqKept(list);
      HandledInWindow(Deq(list), genesis, end);
    }
  }

  /** Stopping at the first trace past the window loses none inside it: what is left is all past the end. */
  lemma NothingLost(list: seq<Source>, genesis: U64, end: U64)
    requires Kept(list) && AllSorted(list) && NotBefore(list, genesis)
    ensures forall e :: e in Handled(list, genesis, end) ==> e.trace.time <= genesis + end
    ensures NotBefore(Rest(list, genesis, end), genesis + end + 1)
  {
    hide Handled, Rest, Kept, AllSorted, Minus;
    HandledInWindow(list, genesis, end);
    ComesOutInTime(list, genesis, end, genesis);
    forall e | e in Handled(list, genesis, end) ensures e.trace.time <= genesis + end {
      MinusFrom(e.trace.time, genesis);
    }
    RestSorted(list, genesis, end);
    RestNotBefore(list, genesis, end, genesis);
    StoppedPast(Rest(list, genesis, end), genesis, end);
  }

  lemma StoppedPast(left: seq<Source>, genesis: U64, end: U64)
    requires Kept(left) && AllSorted(left) && NotBefore(left, genesis) && Stops(left, genesis, end)
    ensures NotBefore(left, genesis + end + 1)
  {
    if left != [] {
      HeadIsEarliest(left);
      MinusFrom(left[0].pending[0].time, genesis);
    }
  }

  lemma {:induction false} RestNotBefore(list: seq<Source>, genesis: U64, end: U64, t: int)
    requires Kept(list) && AllSorted(list) && NotBefore(list, t)
    ensures NotBefore(Rest(list, genesis, end), t)
    decreases Total(list)
  {
    if !Stops(list, genesis, end) {
      DeqKept(list);
      DeqSorted(list);
      assert t <= list[0].pending[0].time;
      RestNotBefore(Deq(list), genesis, end, t);
    }
  }

  // ---------- what is shown ----------

  /** The time of a handled trace as it is shown, counted from the first one. */
  function Rebase(t: Trace, genesis: U64): Trace {
    t.(time := Minus(t.time, genesis))
  }

  /** The handled traces shown: those that pass the mask and are not before the start of the window. */
  function Shown(out: seq<Event>, genesis: U64, start: U64): seq<Event> {
    if out == [] then []
    else
      var t := Rebase(out[0].trace, genesis);
      (if t.wanted && t.time >= start then [Event(out[0].id, t)] else []) + Shown(out[1..], genesis, start)
  }

  /** e is the wanted trace o of the window, with its time counted from genesis. */
  predicate ShownAs(o: Event, genesis: U64, start: U64, e: Event) {
    e == Event(o.id, Rebase(o.trace, genesis)) && e.trace.wanted && e.trace.time >= start
  }

  lemma {:induction false} ShownWhich(out: seq<Event>, genesis: U64, start: U64, e: Event)
    ensures e in Shown(out, genesis, start) <==> exists o :: o in out && ShownAs(o, genesis, start, e)
  {
    hide Rebase;
    if out != [] {
      ShownWhich(out[1..], genesis, start, e);
      assert forall o :: o in out <==> o == out[0] || o in out[1..];
      ShownFirst(out, genesis, start);
      var e0 := Event(out[0].id, Rebase(out[0].trace, genesis));
      assert ShownAs(out[0], genesis, start, e) <==> e == e0 && e0.trace.wanted && e0.trace.time >= start;
    }
  }

  lemma ShownFirst(out: seq<Event>, genesis: U64, start: U64)
    requires out != []
    ensures var e := Event(out[0].id, Rebase(out[0].trace, genesis));
      Shown(out, genesis, start)
      == (if e.trace.wanted && e.trace.time >= start then [e] else []) + Shown(out[1..], genesis, start)
  {
  }

  lemma ShownOne(e: Event, genesis: U64, start: U64)
    ensures var t := Rebase(e.trace, genesis);
      Shown([e], genesis, start) == if t.wanted && t.time >= start then [Event(e.id, t)] else []
  {
    assert |[e][1..]| == 0;
  }

  /** One more trace handled. */
  lemma HandledStep(list: seq<Source>, genesis: U64, start: U64, end: U64)
    requires Kept(list) && !Stops(list, genesis, end)
    ensures Kept(Deq(list)) && Total(Deq(list)) < Total(list)
    ensures Shown(Handled(list, genesis, end), genesis, start)
         == Shown([Event(list[0].id, list[0].pending[0])], genesis, start)
            + Shown(Handled(Deq(list), genesis, end), genesis, start)
  {
    DeqKept(list);
    var e, later := Event(list[0].id, list[0].pending[0]), Handled(Deq(list), genesis, end);
    assert Handled(list, genesis, end) == [e] + later;
    hide Handled, Kept, Deq, Stops, Total;
    ShownJoin(e, later, genesis, start);
  }

  lemma ShownJoin(e: Event, later: seq<Event>, genesis: U64, start: U64)
    ensures Shown([e] + later, genesis, start) == Shown([e], genesis, start) + Shown(later, genesis, start)
  {
    assert ([e] + later)[1..] == later;
  }

  // ---------- from the files ----------

  /** The list once the first n files are set up: an empty file gets no stream. */
  function Load(files: seq<seq<Trace>>, n: nat): seq<Source>
    requires n <= |files|
  {
    if n == 0 then []
    else if files[n - 1] == [] then Load(files, n - 1)
    else Place(Load(files, n - 1), Source(n - 1, files[n - 1]))
  }

  lemma {:induction false} LoadKept(files: seq<seq<Trace>>, n: nat)
    requires n <= |files|
    ensures Kept(Load(files, n)) && forall id: nat :: n <= id ==> NotIn(id, Load(files, n))
  {
    if n > 0 {
      LoadKept(files, n - 1);
      if files[n - 1] != [] {
        PlaceKept(Load(files, n - 1), Source(n - 1, files[n - 1]));
      }
    }
  }

  lemma {:induction false} LoadPending(files: seq<seq<Trace>>, n: nat, id: nat)
    requires n <= |files|
    ensures Pending(Load(files, n), id) == if id < n then files[id] else []
  {
    if n > 0 {
      LoadPending(files, n - 1, id);
      LoadKept(files, n - 1);
      if files[n - 1] != [] {
        PlacePending(Load(files, n - 1), Source(n - 1, files[n - 1]), id);
      }
    }
  }

  ghost predicate SortedFiles(files: seq<seq<Trace>>) {
    forall i :: 0 <= i < |files| ==> NonDecreasing(files[i])
  }

  lemma LoadSorted(files: seq<seq<Trace>>)
    requires SortedFiles(files)
    ensures AllSorted(Load(files, |files|))
  {
    var list := Load(files, |files|);
    LoadKept(files, |files|);
    forall i | 0 <= i < |list| ensures NonDecreasing(list[i].pending) {
      LoadPending(files, |files|, list[i].id);
      PendingOf(list, list[i].id);
    }
  }

  /** The time of the very first trace. */
  function Genesis(files: seq<seq<Trace>>): U64 {
    var list := Load(files, |files|);
    if list == [] || list[0].pending == [] then 0 else list[0].pending[0].time
  }

  lemma {:induction false} PendingFrom(list: seq<Source>, id: nat)
    ensures Pending(list, id) != [] ==> exists i :: 0 <= i < |list| && list[i].pending == Pending(list, id)
  {
    if list != [] && list[0].id != id {
      PendingFrom(list[1..], id);
      assert forall i :: 1 <= i < |list| ==> list[i] == list[1..][i - 1];
    }
  }

  /** For any files: times are counted from the first trace of some file, and no file starts earlier. */
  lemma GenesisIsFirst(files: seq<seq<Trace>>)
    ensures forall i :: 0 <= i < |files| && files[i] != [] ==> Genesis(files) <= files[i][0].time
    ensures (exists i :: 0 <= i < |files| && files[i] != []) ==>
      exists i :: 0 <= i < |files| && files[i] != [] && files[i][0].time == Genesis(files)
  {
    var list := Load(files, |files|);
    LoadKept(files, |files|);
    forall i | 0 <= i < |files| && files[i] != [] ensures list != [] && Head(list[0]) <= files[i][0].time {
      LoadPending(files, |files|, i);
      PendingFrom(list, i);
      var k :| 0 <= k < |list| && list[k].pending == files[i];
      assert Head(list[0]) <= Head(list[k]);
    }
    if list != [] {
      LoadPending(files, |files|, list[0].id);
      PendingOf(list, list[0].id);
    }
  }

  /** Some trace of the files has the time g and none is earlier. */
  ghost predicate Earliest(files: seq<seq<Trace>>, g: U64) {
    && (exists i, j :: 0 <= i < |files| && 0 <= j < |files[i]| && files[i][j].time == g)
    && (forall i, j :: 0 <= i < |files| && 0 <= j < |files[i]| ==> g <= files[i][j].time)
  }

  ghost predicate AllEmpty(files: seq<seq<Trace>>) {
    forall i :: 0 <= i < |files| ==> files[i] == []
  }

  /** Times are counted from the earliest trace of all the files. */
  lemma GenesisIsEarliest(files: seq<seq<Trace>>)
    requires SortedFiles(files)
    ensures AllEmpty(files) || Earliest(files, Genesis(files))
    ensures AllEmpty(files) ==> Load(files, |files|) == []
    ensures forall g: U64 :: Earliest(files, g) ==> g == Genesis(files)
  {
    var list, g := Load(files, |files|), Genesis(files);
    LoadKept(files, |files|);
    LoadSorted(files);
    GenesisFirst(files);
    forall i | 0 <= i < |files| ensures forall j :: 0 <= j < |files[i]| ==> g <= files[i][j].time {
      LoadPending(files, |files|, i);
      PendingLate(list, i, g);
    }
    if list != [] {
      var i := list[0].id;
      LoadPending(files, |files|, i);
      PendingOf(list, i);
      assert files[i][0].time == g;
    } else {
      forall i | 0 <= i < |files| ensures files[i] == [] {
        LoadPending(files, |files|, i);
      }
    }
  }

  /** What do_file makes of sorted files: the traces of the window, all of them, in order of time, those of
      one file in their own order; g is the earliest time. */
  lemma MergedFiles(files: seq<seq<Trace>>, end: U64, id: nat, g: U64)
    requires id < |files| && SortedFiles(files) && Earliest(files, g)
    ensures Kept(Load(files, |files|))
    ensures var out := Handled(Load(files, |files|), Genesis(files), end);
      && InTime(out)
      && |From(out, id)| <= |files[id]| && From(out, id) == files[id][..|From(out, id)|]
      && forall j :: 0 <= j < |files[id]| ==>
           (j < |From(out, id)| <==> files[id][j].time <= g + end)
  {
    GenesisIsEarliest(files);
    hide Handled, Rest, From, Pending, Kept, AllSorted, NotBefore, InTime, Earliest, AllEmpty;
    var list, genesis := Load(files, |files|), Genesis(files);
    LoadKept(files, |files|);
    LoadSorted(files);
    LoadPending(files, |files|, id);
    GenesisFirst(files);
    var out, rest := Handled(list, genesis, end), Rest(list, genesis, end);
    ComesOutInTime(list, genesis, end, genesis);
    Interleaving(list, genesis, end, id);
    NothingLost(list, genesis, end);
    SplitAtWindow(out, rest, files[id], id, genesis + end);
  }

  lemma GenesisFirst(files: seq<seq<Trace>>)
    requires Kept(Load(files, |files|)) && AllSorted(Load(files, |files|))
    ensures NotBefore(Load(files, |files|), Genesis(files))
  {
    var list := Load(files, |files|);
    if list != [] {
      HeadIsEarliest(list);
    }
  }

  lemma SplitAtWindow(out: seq<Event>, rest: seq<Source>, file: seq<Trace>, id: nat, limit: int)
    requires From(out, id) + Pending(rest, id) == file
    requires forall e :: e in out ==> e.trace.time <= limit
    requires NotBefore(rest, limit + 1)
    ensures |From(out, id)| <= |file| && From(out, id) == file[..|From(out, id)|]
    ensures forall j :: 0 <= j < |file| ==> (j < |From(out, id)| <==> file[j].time <= limit)
  {
    hide From, Pending, NotBefore;
    FromOut(out, id);
    PendingLate(rest, id, limit + 1);
    var a, b := From(out, id), Pending(rest, id);
    forall j | 0 <= j < |file| ensures j < |a| <==> file[j].time <= limit {
      if j < |a| {
        assert file[j] == a[j] && a[j] in a;
        assert Event(id, a[j]) in out;
      } else {
        assert file[j] == b[j - |a|];
      }
    }
  }

  lemma {:induction false} FromOut(out: seq<Event>, id: nat)
    ensures forall t :: t in From(out, id) ==> Event(id, t) in out
  {
    if out != [] {
      FromOut(out[1..], id);
    }
  }

  lemma {:induction false} PendingLate(list: seq<Source>, id: nat, t: int)
    requires NotBefore(list, t)
    ensures forall j :: 0 <= j < |Pending(list, id)| ==> t <= Pending(list, id)[j].time
  {
    if list != [] {
      assert forall i :: 1 <= i < |list| ==> list[i] == list[1..][i - 1];
      PendingLate(list[1..], id, t);
    }
  }

  // ---------- what is shown of each file ----------

  /** The wanted traces at least start and at most end after genesis, with their times counted from genesis. */
  ghost function InWindow(s: seq<Trace>, genesis: U64, start: U64, end: U64): seq<Trace> {
    if s == [] then []
    else
      (if s[0].wanted && genesis + start <= s[0].time <= genesis + end
       then [s[0].(time := s[0].time - genesis)] else [])
        + InWindow(s[1..], genesis, start, end)
  }

  lemma {:induction false} InWindowSplit(a: seq<Trace>, b: seq<Trace>, genesis: U64, start: U64, end: U64)
    ensures InWindow(a + b, genesis, start, end) == InWindow(a, genesis, start, end) + InWindow(b, genesis, start, end)
  {
    if a == [] {
      assert a + b == b;
    } else {
      assert (a + b)[1..] == a[1..] + b;
      InWindowSplit(a[1..], b, genesis, start, end);
    }
  }

  lemma {:induction false} NoneInWindow(s: seq<Trace>, genesis: U64, start: U64, end: U64)
    requires forall j :: 0 <= j < |s| ==> genesis + end < s[j].time
    ensures InWindow(s, genesis, start, end) == []
  {
    if s != [] {
      NoneInWindow(s[1..], genesis, start, end);
    }
  }

  /** Of traces that are not past the end, what is shown of one stream is what is in the window. */
  lemma {:induction false} FromShown(out: seq<Event>, id: nat, genesis: U64, start: U64, end: U64)
    requires forall e :: e in out ==> genesis <= e.trace.time <= genesis + end
    ensures From(Shown(out, genesis, start), id) == InWindow(From(out, id), genesis, start, end)
  {
    if out != [] {
      FromShown(out[1..], id, genesis, start, end);
      MinusFrom(out[0].trace.time, genesis);
      hide Minus;
      assert out[0] in out;
      var t, later := Rebase(out[0].trace, genesis), Shown(out[1..], genesis, start);
      var e, rest := Event(out[0].id, t), From(out[1..], id);
      assert ([e] + later)[1..] == later && [] + later == later;
      assert ([out[0].trace] + rest)[1..] == rest && [] + rest == rest;
      assert Shown(out, genesis, start) == (if t.wanted && t.time >= start then [e] else []) + later;
      assert From(out, id) == (if out[0].id == id then [out[0].trace] else []) + rest;
    }
  }

  lemma {:induction false} ShownInTime(out: seq<Event>, genesis: U64, start: U64)
    requires InTime(out) && forall e :: e in out ==> genesis <= e.trace.time
    ensures InTime(Shown(out, genesis, start))
    ensures forall e :: e in Shown(out, genesis, start) ==> out != [] && out[0].trace.time - genesis <= e.trace.time
  {
    if out != [] {
      ShownInTime(out[1..], genesis, start);
      MinusFrom(out[0].trace.time, genesis);
    }
  }

  /** From sorted files what is shown is in order of time ... */
  lemma ShownSorted(files: seq<seq<Trace>>, start: U64, end: U64)
    requires SortedFiles(files)
    ensures Kept(Load(files, |files|))
    ensures InTime(Shown(Handled(Load(files, |files|), Genesis(files), end), Genesis(files), start))
  {
    hide Handled, Shown, Kept, AllSorted, NotBefore, InTime, SortedFiles;
    var list, genesis := Load(files, |files|), Genesis(files);
    LoadKept(files, |files|);
    LoadSorted(files);
    GenesisFirst(files);
    OutInWindow(list, genesis, end);
    ComesOutInTime(list, genesis, end, genesis);
    ShownInTime(Handled(list, genesis, end), genesis, start);
  }

  /** ... and of each file exactly the wanted traces of the window, each once, with times counted from the earliest
      trace of all. */
  lemma ShownPerFile(files: seq<seq<Trace>>, start: U64, end: U64, id: nat, g: U64)
    requires id < |files| && SortedFiles(files) && Earliest(files, g)
    ensures Kept(Load(files, |files|))
    ensures var shown := Shown(Handled(Load(files, |files|), Genesis(files), end), Genesis(files), start);
      From(shown, id) == InWindow(files[id], g, start, end)
  {
    hide Handled, From, Shown, Kept, AllSorted, NotBefore, InTime, InWindow, SortedFiles, Earliest, AllEmpty;
    hide Genesis, Load, Minus;
    GenesisIsEarliest(files);
    MergedFiles(files, end, id, g);
    var list := Load(files, |files|);
    LoadSorted(files);
    GenesisFirst(files);
    OutInWindow(list, g, end);
    ShownOfOne(Handled(list, g, end), files[id], id, g, start, end);
  }

  /** A first part of the file has come out, which is what is not past the end. */
  lemma ShownOfOne(out: seq<Event>, file: seq<Trace>, id: nat, genesis: U64, start: U64, end: U64)
    requires forall e :: e in out ==> genesis <= e.trace.time <= genesis + end
    requires |From(out, id)| <= |file| && From(out, id) == file[..|From(out, id)|]
    requires forall j :: 0 <= j < |file| ==> (j < |From(out, id)| <==> file[j].time <= genesis + end)
    ensures From(Shown(out, genesis, start), id) == InWindow(file, genesis, start, end)
  {
    hide From, Shown, InWindow;
    FromShown(out, id, genesis, start, end);
    var n := |From(out, id)|;
    var late := file[n..];
    assert file == file[..n] + late;
    InWindowSplit(file[..n], late, genesis, start, end);
    forall j | 0 <= j < |late| ensures genesis + end < late[j].time {
      assert late[j] == file[n + j];
    }
    NoneInWindow(late, genesis, start, end);
    assert InWindow(file[..n], genesis, start, end) + [] == InWindow(file[..n], genesis, start, end);
  }

  lemma OutInWindow(list: seq<Source>, genesis: U64, end: U64)
    requires Kept(list) && AllSorted(list) && NotBefore(list, genesis)
    ensures var out := Handled(list, genesis, end);
      forall e :: e in out ==> genesis <= e.trace.time <= genesis + end
  {
    hide Handled, Kept, AllSorted, NotBefore;
    ComesOutInTime(list, genesis, end, genesis);
    NothingLost(list, genesis, end);
    var out := Handled(list, genesis, end);
    forall e | e in out ensures genesis <= e.trace.time {
      var i :| 0 <= i < |out| && out[i] == e;
    }
  }

  lemma {:induction false} FromSorted(out: seq<Event>, id: nat)
    requires InTime(out)
    ensures NonDecreasing(From(out, id))
  {
    if out != [] {
      FromSorted(out[1..], id);
      FromOut(out[1..], id);
      assert forall t :: t in From(out[1..], id) ==> out[0].trace.time <= t.time;
    }
  }

  /** Without a window, the output is in order of time exactly if every file is. */
  lemma InOrderIff(files: seq<seq<Trace>>, end: U64)
    requires end == TWO64 - 1
    ensures Kept(Load(files, |files|))
    ensures InTime(Handled(Load(files, |files|), Genesis(files), end))
       <==> SortedFiles(files)
  {
    var list, genesis := Load(files, |files|), Genesis(files);
    LoadKept(files, |files|);
    var out, rest := Handled(list, genesis, end), Rest(list, genesis, end);
    assert rest == [];
    if InTime(out) {
      forall i | 0 <= i < |files| ensures NonDecreasing(files[i]) {
        Interleaving(list, genesis, end, i);
        LoadPending(files, |files|, i);
        FromSorted(out, i);
        assert From(out, i) + [] == From(out, i);
      }
    }
    if SortedFiles(files) {
      LoadSorted(files);
      if list != [] {
        HeadIsEarliest(list);
      }
      ComesOutInTime(list, genesis, end, genesis);
    }
    assert InTime(out) <==> SortedFiles(files);
  }
}
