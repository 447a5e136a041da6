/** How blktrace's tracer threads hand their buffers to the main thread: one list per device and CPU, and
    dp_entries, the shared count of what is on them. One action is one critical section, or one step
    outside of one. */
module Entries {

  import opened Words
  import opened Sums
  import opened Records

  type Buf = seq<Byte>

  /** Where the main thread stands. */
  datatype Main =
    | Top                                  // in process_trace_bufs, before wait_empty_entries
    | Blocked                              // in pthread_cond_wait
    | Stopped                              // past process_trace_bufs, in wait_tracers_leaving
    | CleanTop                             // at the loop test of clean_trace_bufs
    | Scan(h: nat)                         // in __process_trace_bufs, before locking head h
    | Hand(h: nat, list: seq<Buf>)         // with the rest of the list taken from head h
    | Returned                             // clean_trace_bufs has returned

  /** lists: what hangs on each head; entries: dp_entries; pending, left: per tracer, the buffers added but not
      yet announced by incr_entries, and whether it has left; handled: the local counter of __process_trace_bufs;
      added, consumed: per head, all buffers ever put on its list, and all passed to handle_list. */
  datatype State = State(
    lists: seq<seq<Buf>>, entries: int, pending: seq<nat>, left: seq<bool>,
    done: bool, signal: bool, cleaning: bool, main: Main, handled: nat,
    added: seq<seq<Buf>>, consumed: seq<seq<Buf>>)

  datatype Action =
    | AddTraceBuf(t: nat, h: nat, buf: Buf)
    | IncrEntries(t: nat)
    | Leave(t: nat)
    | SetDone
    | WaitEmptyEntries                     // one pass of its loop, under the mutex
    | WaitTracers
    | CleanTest
    | TakeList
    | HandleBuf
    | NextHead
    | DecrEntries

  function Itself(n: nat): nat { n }

  function Length(list: seq<Buf>): nat { |list| }

  /** Buffers added but not announced, over all tracers. */
  function Pending(pending: seq<nat>): nat {
    Sum(pending, Itself)
  }

  /** Buffers on all the lists together. */
  function Listed(lists: seq<seq<Buf>>): nat {
    Sum(lists, Length)
  }

  ghost predicate Init(s: State) {
    && |s.added| == |s.consumed| == |s.lists| && |s.left| == |s.pending|
    && (forall h :: 0 <= h < |s.lists| ==> s.lists[h] == s.added[h] == s.consumed[h] == [])
    && (forall t :: 0 <= t < |s.pending| ==> s.pending[t] == 0 && !s.left[t])
    && s.entries == 0 && s.handled == 0 && !s.done && !s.signal && !s.cleaning && s.main.Top?
  }

  ghost predicate Enabled(s: State, a: Action) {
    match a
    case AddTraceBuf(t, h, buf) => t < |s.pending| == |s.left| && h < |s.lists| == |s.added| && !s.left[t]
    case IncrEntries(t) => t < |s.pending| && s.pending[t] > 0
    case Leave(t) => t < |s.pending| == |s.left| && s.pending[t] == 0
    case SetDone => true
    case WaitEmptyEntries => s.main.Top? || s.main.Blocked?
    case WaitTracers => s.main.Stopped? && forall t :: 0 <= t < |s.left| ==> s.left[t]
    case CleanTest => s.main.CleanTop?
    case TakeList => s.main.Scan? && s.main.h < |s.lists|
    case HandleBuf => s.main.Hand? && s.main.list != [] && s.main.h < |s.consumed|
    case NextHead => s.main.Hand? && s.main.list == []
    case DecrEntries => s.main.Scan? && s.main.h == |s.lists|
  }

  function DoAdd(s: State, t: nat, h: nat, buf: Buf): State
    requires t < |s.pending| && h < |s.lists| == |s.added|
  {
    s.(lists := s.lists[h := s.lists[h] + [buf]], added := s.added[h := s.added[h] + [buf]],
       pending := s.pending[t := s.pending[t] + 1])
  }

  /** A signal while the main thread is not waiting is lost. */
  function DoIncr(s: State, t: nat): State
    requires t < |s.pending|
  {
    s.(entries := s.entries + s.pending[t], pending := s.pending[t := 0],
       signal := s.signal || (s.entries == 0 && s.main.Blocked?))
  }

  /** The wait is a timed one, so the main thread may come out of it with or without a signal. */
  function DoWait(s: State): State {
    if s.done then s.(main := Stopped, signal := false)
    else if s.entries == 0 then s.(main := Blocked, signal := false)
    else s.(main := Scan(0), handled := 0, signal := false)
  }

  function DoCleanTest(s: State): State {
    if s.entries != 0 then s.(main := Scan(0), handled := 0) else s.(main := Returned)
  }

  /** A head with an empty list is passed over. */
  function DoTake(s: State): State
    requires s.main.Scan? && s.main.h < |s.lists|
  {
    var h := s.main.h;
    if s.lists[h] == [] then s.(main := Scan(h + 1)) else s.(lists := s.lists[h := []], main := Hand(h, s.lists[h]))
  }

  function DoHandle(s: State): State
    requires s.main.Hand? && s.main.list != [] && s.main.h < |s.consumed|
  {
    var h, list := s.main.h, s.main.list;
    s.(consumed := s.consumed[h := s.consumed[h] + [list[0]]], handled := s.handled + 1, main := Hand(h, list[1..]))
  }

  function DoDecr(s: State): State {
    s.(entries := s.entries - s.handled, handled := 0, main := if s.cleaning then CleanTop else Top)
  }

  ghost function Do(s: State, a: Action): State
    requires Enabled(s, a)
  {
    match a
    case AddTraceBuf(t, h, buf) => DoAdd(s, t, h, buf)
    case IncrEntries(t) => DoIncr(s, t)
    case Leave(t) => s.(left := s.left[t := true])
    case SetDone => s.(done := true)
    case WaitEmptyEntries => DoWait(s)
    case WaitTracers => s.(main := CleanTop, cleaning := true)
    case CleanTest => DoCleanTest(s)
    case TakeList => DoTake(s)
    case HandleBuf => DoHandle(s)
    case NextHead => s.(main := Scan(s.main.h + 1))
    case DecrEntries => DoDecr(s)
  }

  // ---------- what every step keeps ----------

  /** The buffers the main thread holds that came from head h. */
  function InHand(m: Main, h: nat): seq<Buf> {
    if m.Hand? && m.h == h then m.list else []
  }

  function Held(m: Main): nat {
    if m.Hand? then |m.list| else 0
  }

  /** Head by head, what was added is what was consumed, then what is in hand, then what is on the list. */
  ghost predicate InOrder(lists: seq<seq<Buf>>, m: Main, added: seq<seq<Buf>>, consumed: seq<seq<Buf>>) {
    && |added| == |consumed| == |lists|
    && (forall h :: 0 <= h < |lists| ==> added[h] == consumed[h] + InHand(m, h) + lists[h])
    && (m.Hand? ==> m.h < |lists|)
    && (m.Scan? ==> m.h <= |lists|)
  }

  /** dp_entries counts the buffers on the lists, in hand, and handled since the last subtraction,
      less those not yet announced. */
  ghost predicate Accounted(lists: seq<seq<Buf>>, m: Main, handled: nat, pending: seq<nat>, entries: int) {
    entries == Listed(lists) + Held(m) + handled - Pending(pending)
  }

  /** Once clean_trace_bufs runs all tracers have left, and the lists it has passed stay empty. */
  ghost predicate Clean(s: State) {
    && |s.left| == |s.pending|
    && (forall t :: 0 <= t < |s.left| && s.left[t] ==> s.pending[t] == 0)
    && (s.cleaning ==> forall t :: 0 <= t < |s.left| ==> s.left[t])
    && (s.main.CleanTop? || s.main.Returned? ==> s.cleaning)
    && (s.main.Top? || s.main.Blocked? || s.main.Stopped? ==> !s.cleaning)
    && (!(s.main.Scan? || s.main.Hand?) ==> s.handled == 0)
    && (s.cleaning && s.main.Scan? ==> Emptied(s.lists, s.main.h))
    && (s.cleaning && s.main.Hand? ==> Emptied(s.lists, s.main.h + 1))
    && (s.main.Returned? ==> s.entries == 0)
  }

  ghost predicate Emptied(lists: seq<seq<Buf>>, n: nat) {
    forall h :: 0 <= h < n && h < |lists| ==> lists[h] == []
  }

  ghost predicate Wakes(s: State) {
    (s.main.Blocked? && !s.signal ==> s.entries == 0) && (s.signal ==> s.main.Blocked?)
  }

  ghost predicate Inv(s: State) {
    && InOrder(s.lists, s.main, s.added, s.consumed)
    && Accounted(s.lists, s.main, s.handled, s.pending, s.entries)
    && Clean(s) && Wakes(s)
  }

  lemma ListedZero(lists: seq<seq<Buf>>)
    ensures Listed(lists) == 0 <==> Emptied(lists, |lists|)
  {
    if Listed(lists) == 0 {
      forall h | 0 <= h < |lists| ensures lists[h] == [] {
        SumAtLeast(lists, h, Length);
      }
    }
    if Emptied(lists, |lists|) {
      SumAll(lists, Length, 0);
    }
  }

  lemma InitInv(s: State)
    requires Init(s)
    ensures Inv(s)
  {
    SumAll(s.pending, Itself, 0);
    ListedZero(s.lists);
  }

  lemma KeepAdd(s: State, t: nat, h: nat, buf: Buf)
    requires Inv(s) && Enabled(s, AddTraceBuf(t, h, buf))
    ensures Inv(DoAdd(s, t, h, buf))
  {
    SumUpdate(s.pending, t, s.pending[t] + 1, Itself);
    SumUpdate(s.lists, h, s.lists[h] + [buf], Length);
    assert s.added[h] + [buf] == s.consumed[h] + InHand(s.main, h) + (s.lists[h] + [buf]);
  }

  lemma KeepIncr(s: State, t: nat)
    requires Inv(s) && Enabled(s, IncrEntries(t))
    ensures Inv(DoIncr(s, t))
  {
    SumUpdate(s.pending, t, 0, Itself);
  }

  lemma TakeInOrder(lists: seq<seq<Buf>>, h: nat, added: seq<seq<Buf>>, consumed: seq<seq<Buf>>)
    requires h < |lists| && InOrder(lists, Scan(h), added, consumed)
    ensures lists[h] == [] ==> InOrder(lists, Scan(h + 1), added, consumed)
    ensures InOrder(lists[h := []], Hand(h, lists[h]), added, consumed)
  {
    forall i | 0 <= i < |lists|
      ensures added[i] == consumed[i] + InHand(Hand(h, lists[h]), i) + lists[h := []][i]
    {
    }
  }

  lemma KeepTake(s: State)
    requires Inv(s) && Enabled(s, TakeList)
    ensures Inv(DoTake(s))
  {
    hide InOrder;
    assert s.main == Scan(s.main.h);
    TakeInOrder(s.lists, s.main.h, s.added, s.consumed);
    SumUpdate(s.lists, s.main.h, [], Length);
  }

  lemma KeepHandle(s: State)
    requires Inv(s) && Enabled(s, HandleBuf)
    ensures Inv(DoHandle(s))
  {
    var h, list := s.main.h, s.main.list;
    assert s.consumed[h] + list == s.consumed[h] + [list[0]] + list[1..];
  }

  lemma KeepDecr(s: State)
    requires Inv(s) && Enabled(s, DecrEntries)
    ensures Inv(DoDecr(s))
  {
  }

  lemma KeepCleanTest(s: State)
    requires Inv(s) && Enabled(s, CleanTest)
    ensures Inv(DoCleanTest(s))
  {
  }

  lemma KeepWait(s: State)
    requires Inv(s) && Enabled(s, WaitEmptyEntries)
    ensures Inv(DoWait(s))
  {
  }

  lemma KeepOther(s: State, a: Action)
    requires Inv(s) && Enabled(s, a) && (a.Leave? || a.SetDone? || a.WaitTracers? || a.NextHead?)
    ensures Inv(Do(s, a))
  {
    hide Listed, Pending;
  }

  lemma StepKeepsInv(s: State, a: Action)
    requires Inv(s) && Enabled(s, a)
    ensures Inv(Do(s, a))
  {
    hide Inv, DoAdd, DoIncr, DoTake, DoHandle, DoDecr, DoCleanTest, DoWait;
    match a
    case AddTraceBuf(t, h, buf) => KeepAdd(s, t, h, buf);
    case IncrEntries(t) => KeepIncr(s, t);
    case CleanTest => KeepCleanTest(s);
    case TakeList => KeepTake(s);
    case HandleBuf => KeepHandle(s);
    case DecrEntries => KeepDecr(s);
    case WaitEmptyEntries => KeepWait(s);
    case _ => KeepOther(s, a);
  }

  // ---------- whole runs ----------

  ghost predicate Steps(ss: seq<State>, acts: seq<Action>) {
    |ss| == |acts| + 1 && forall i :: 0 <= i < |acts| ==> Enabled(ss[i], acts[i]) && ss[i + 1] == Do(ss[i], acts[i])
  }

  ghost predicate Run(ss: seq<State>, acts: seq<Action>) {
    Steps(ss, acts) && Init(ss[0])
  }

  /** The steps after the first one. */
  lemma AfterFirst(ss: seq<State>, acts: seq<Action>)
    requires Steps(ss, acts) && acts != []
    ensures Steps(ss[1..], acts[1..]) && Enabled(ss[0], acts[0]) && ss[1] == Do(ss[0], acts[0])
  {
    hide Do, Enabled;
    var rest, later := ss[1..], acts[1..];
    assert forall i :: 0 <= i < |later| ==> rest[i] == ss[i + 1] && later[i] == acts[i + 1];
  }

  lemma {:induction false} RunKeepsInv(ss: seq<State>, acts: seq<Action>, n: nat)
    requires Run(ss, acts) && n < |ss|
    ensures Inv(ss[n])
  {
    if n == 0 {
      InitInv(ss[0]);
    } else {
      RunKeepsInv(ss, acts, n - 1);
      StepKeepsInv(ss[n - 1], acts[n - 1]);
    }
  }

  /** At every point of every interleaving dp_entries accounts for the buffers, each of them is in exactly one
      place, in the order it was added, and a main thread that waits unsignalled has nothing announced to do. */
  lemma Safe(ss: seq<State>, acts: seq<Action>, n: nat)
    requires Run(ss, acts) && n < |ss|
    ensures var s := ss[n];
      && s.entries == Listed(s.lists) + Held(s.main) + s.handled - Pending(s.pending)
      && |s.added| == |s.consumed| == |s.lists|
      && (forall h :: 0 <= h < |s.lists| ==> s.added[h] == s.consumed[h] + InHand(s.main, h) + s.lists[h])
      && (s.main.Blocked? && !s.signal ==> Listed(s.lists) == Pending(s.pending))
  {
    RunKeepsInv(ss, acts, n);
  }

  /** What is on the lists unannounced while the main thread waits will be announced with a signal. */
  lemma AnnouncingSignals(s: State, t: nat)
    requires Inv(s) && s.main.Blocked? && Enabled(s, IncrEntries(t))
    ensures Do(s, IncrEntries(t)).signal
  {
  }

  // ---------- one pass over the heads ----------

  /** The steps of the main thread inside a pass. */
  predicate Passes(a: Action) {
    a.TakeList? || a.HandleBuf? || a.NextHead?
  }

  predicate InPass(s: State) { s.main.Scan? || s.main.Hand? }

  /** The pass has come to head h, or is past it, and what is due of h has been consumed, is in hand, or, if its list
      has not been taken yet, is on the list. */
  ghost predicate DueOf(s: State, h: nat, due: seq<Buf>) {
    && InPass(s) && h < |s.lists| && |s.consumed| == |s.lists| && s.main.h >= h
    && due <= s.consumed[h] + (if s.main.h > h then [] else if s.main.Hand? then s.main.list else s.lists[h])
  }

  lemma StepDue(s: State, a: Action, h: nat, due: seq<Buf>)
    requires Inv(s) && Enabled(s, a) && !a.DecrEntries? && DueOf(s, h, due)
    ensures DueOf(Do(s, a), h, due)
  {
    var s' := Do(s, a);
    if a.HandleBuf? && s.main.h == h {
      var list := s.main.list;
      assert s.consumed[h] + list == s.consumed[h] + [list[0]] + list[1..];
    } else if a.AddTraceBuf? && a.h == h {
      assert s.consumed[h] + (s.lists[h] + [a.buf]) == s.consumed[h] + s.lists[h] + [a.buf];
    }
    hide Accounted, Clean, Wakes, Listed, Pending;
  }

  lemma DueAtEnd(s: State, h: nat, due: seq<Buf>)
    requires DueOf(s, h, due) && Enabled(s, DecrEntries)
    ensures h < |s.consumed| && due <= s.consumed[h]
  {
  }

  lemma {:induction false} StepsDue(ss: seq<State>, acts: seq<Action>, h: nat, due: seq<Buf>)
    requires Steps(ss, acts) && Inv(ss[0]) && DueOf(ss[0], h, due)
    requires forall i :: 0 <= i < |acts| ==> !acts[i].DecrEntries?
    ensures DueOf(ss[|acts|], h, due)
    decreases |acts|
  {
    hide Inv, Do, Enabled, DueOf;
    if acts != [] {
      AfterFirst(ss, acts);
      StepKeepsInv(ss[0], acts[0]);
      StepDue(ss[0], acts[0], h, due);
      StepsDue(ss[1..], acts[1..], h, due);
    }
  }

  /** s has reached head h, and what it has consumed of it and finds on its list is consumed in t. */
  ghost predicate Served(s: State, t: State, h: nat) {
    && h < |s.lists| == |s.consumed| && h < |t.consumed| && s.main == Scan(h)
    && s.consumed[h] + s.lists[h] <= t.consumed[h]
  }

  ghost predicate ServedOnTheWay(ss: seq<State>, t: State, h: nat) {
    exists i :: 0 <= i < |ss| && Served(ss[i], t, h)
  }

  /** From a head not past h the pass comes to h, and at its end has consumed what it found there. */
  lemma {:induction false} PassServes(ss: seq<State>, acts: seq<Action>, h: nat)
    requires Steps(ss, acts) && Inv(ss[0]) && InPass(ss[0]) && h < |ss[0].lists|
    requires ss[0].main.h < h || ss[0].main == Scan(h)
    requires (forall i :: 0 <= i < |acts| ==> !acts[i].DecrEntries?) && Enabled(ss[|acts|], DecrEntries)
    ensures ServedOnTheWay(ss, ss[|acts|], h)
    decreases |acts|
  {
    var t := ss[|acts|];
    if ss[0].main == Scan(h) {
      var due := ss[0].consumed[h] + ss[0].lists[h];
      StepsDue(ss, acts, h, due);
      DueAtEnd(t, h, due);
      assert Served(ss[0], t, h);
    } else {
      AtTheEnd(ss, acts);
      AfterFirst(ss, acts);
      StepKeepsInv(ss[0], acts[0]);
      OneOn(ss[0], acts[0], h);
      hide Inv, Do, Enabled, Steps, Served;
      PassServes(ss[1..], acts[1..], h);
      var i :| 0 <= i < |ss[1..]| && Served(ss[1..][i], ss[1..][|acts| - 1], h);
      assert Served(ss[i + 1], t, h);
    }
  }

  lemma OneOn(s: State, a: Action, h: nat)
    requires Inv(s) && Enabled(s, a) && !a.DecrEntries? && InPass(s) && s.main.h < h < |s.lists|
    ensures var s' := Do(s, a);
      InPass(s') && h < |s'.lists| && (s'.main.h < h || s'.main == Scan(h))
  {
    hide Inv, Listed, Pending;
  }

  lemma AtTheEnd(ss: seq<State>, acts: seq<Action>)
    requires Steps(ss, acts) && Enabled(ss[|acts|], DecrEntries) && InPass(ss[0]) && ss[0].main.h < |ss[0].lists|
    ensures acts != []
  {
  }

  /** A whole pass, before or after the tracers have left: every buffer that was on the list of a head when the pass
      came to it has been handled at its end. */
  lemma PassHandlesAll(ss: seq<State>, acts: seq<Action>)
    requires Steps(ss, acts) && Inv(ss[0]) && ss[0].main == Scan(0)
    requires (forall i :: 0 <= i < |acts| ==> !acts[i].DecrEntries?) && Enabled(ss[|acts|], DecrEntries)
    ensures forall h :: 0 <= h < |ss[0].lists| ==> ServedOnTheWay(ss, ss[|acts|], h)
  {
    assert |ss| == |acts| + 1;
    hide Inv, Steps, ServedOnTheWay;
    forall h | 0 <= h < |ss[0].lists| ensures ServedOnTheWay(ss, ss[|acts|], h) {
      PassServes(ss, acts, h);
    }
  }

  /** The steps that a pass still takes, if nothing is added on the way. */
  function PassToGo(s: State): int {
    if !InPass(s) then 0
    else
      2 * (|s.lists| - s.main.h) + 2 * Listed(s.lists) + (if s.main.Hand? then |s.main.list| else 1)
  }

  lemma PassNonneg(s: State)
    requires Inv(s)
    ensures 0 <= PassToGo(s)
  {
  }

  /** A pass always has a step to take until it is over ... */
  lemma PassGoesOn(s: State) returns (a: Action)
    requires Inv(s) && InPass(s)
    ensures Enabled(s, a) && (Passes(a) || a.DecrEntries?)
  {
    match s.main
    case Scan(h) => a := if h < |s.lists| then TakeList else DecrEntries;
    case Hand(h, list) => a := if list == [] then NextHead else HandleBuf;
  }

  /** ... and each of its steps brings it nearer to its end, while a buffer added costs at most two more. */
  lemma PassComesNearer(s: State, a: Action)
    requires Inv(s) && Enabled(s, a) && InPass(s) && !a.DecrEntries?
    ensures InPass(Do(s, a))
    ensures PassToGo(Do(s, a)) <= PassToGo(s) + if Passes(a) then -1 else if a.AddTraceBuf? then 2 else 0
  {
    if a.TakeList? {
      SumUpdate(s.lists, s.main.h, [], Length);
    } else if a.AddTraceBuf? {
      SumUpdate(s.lists, a.h, s.lists[a.h] + [a.buf], Length);
    }
    hide Accounted, Clean, Wakes, Pending, Listed;
  }

  // ---------- clean_trace_bufs ----------

  /** The steps of clean_trace_bufs. */
  predicate Cleans(a: Action) {
    a.CleanTest? || a.TakeList? || a.HandleBuf? || a.NextHead? || a.DecrEntries?
  }

  /** How many steps clean_trace_bufs takes from here. */
  function StepsToGo(s: State): nat
    requires s.main.Scan? ==> s.main.h <= |s.lists|
    requires s.main.Hand? ==> s.main.h < |s.lists|
  {
    match s.main
    case CleanTop => if s.entries == 0 then 1 else 2 * |s.lists| + 2 * Listed(s.lists) + 3
    case Scan(h) => 2 * (|s.lists| - h) + 2 * Listed(s.lists) + 2
    case Hand(h, list) => 2 * (|s.lists| - h) + 2 * Listed(s.lists) + |list| + 1
    case _ => 0
  }

  /** With all tracers gone, dp_entries is the number of buffers still to be handled or subtracted. */
  lemma CleanCounts(s: State)
    requires Inv(s) && s.cleaning
    ensures s.entries == Listed(s.lists) + Held(s.main) + s.handled
  {
    SumAll(s.pending, Itself, 0);
  }

  /** clean_trace_bufs always has a step to take until it returns ... */
  lemma CleanGoesOn(s: State) returns (a: Action)
    requires Inv(s) && s.cleaning && !s.main.Returned?
    ensures Cleans(a) && Enabled(s, a)
  {
    match s.main
    case CleanTop => a := CleanTest;
    case Scan(h) => a := if h < |s.lists| then TakeList else DecrEntries;
    case Hand(h, list) => a := if list == [] then NextHead else HandleBuf;
  }

  /** ... and every step brings it nearer to its end, so it makes at most one pass over the heads. */
  lemma CleanEnds(s: State, a: Action)
    requires Inv(s) && s.cleaning && Cleans(a) && Enabled(s, a)
    ensures Inv(Do(s, a)) && Do(s, a).cleaning && StepsToGo(Do(s, a)) < StepsToGo(s)
  {
    StepKeepsInv(s, a);
    CleanCounts(s);
    if a == TakeList {
      SumUpdate(s.lists, s.main.h, [], Length);
    } else if a == DecrEntries {
      ListedZero(s.lists);
    }
  }

  // ---------- the end ----------

  /** All steps of the main thread. */
  predicate ByMain(a: Action) {
    Passes(a) || a.DecrEntries? || a.WaitEmptyEntries? || a.WaitTracers? || a.CleanTest?
  }

  /** done is set and all tracers have left. */
  ghost predicate Closing(s: State) {
    s.done && forall t :: 0 <= t < |s.left| ==> s.left[t]
  }

  /** At most so many steps of the main thread are left then. */
  function ToReturn(s: State): int {
    var clean := 2 * |s.lists| + 2 * Listed(s.lists) + 5;
    match s.main
    case Top => 2 + clean
    case Blocked => 2 + clean
    case Stopped => 1 + clean
    case CleanTop => if s.entries == 0 then 1 else clean
    case Returned => 0
    case _ => PassToGo(s) + if s.cleaning then 2 else 3 + clean
  }

  /** The main thread, wherever it is, has a step to take until clean_trace_bufs has returned ... */
  lemma ClosingGoesOn(s: State) returns (a: Action)
    requires Inv(s) && Closing(s) && !s.main.Returned?
    ensures ByMain(a) && Enabled(s, a)
  {
    if InPass(s) {
      a := PassGoesOn(s);
    } else if s.main.Top? || s.main.Blocked? {
      a := WaitEmptyEntries;
    } else {
      a := if s.main.Stopped? then WaitTracers else CleanTest;
    }
  }

  lemma QuietClosing(s: State, a: Action)
    requires Inv(s) && Closing(s) && Enabled(s, a) && !ByMain(a)
    ensures Do(s, a).lists == s.lists && Do(s, a).main == s.main && Do(s, a).entries == s.entries
    ensures Do(s, a).cleaning == s.cleaning && Closing(Do(s, a))
  {
  }

  lemma PassCloses(s: State, a: Action)
    requires Inv(s) && Closing(s) && Enabled(s, a) && Passes(a)
    ensures ToReturn(Do(s, a)) < ToReturn(s) && Do(s, a).cleaning == s.cleaning
  {
    hide PassToGo, Listed, Inv;
    PassComesNearer(s, a);
    if a.TakeList? {
      TakeListed(s);
    }
  }

  lemma TakeListed(s: State)
    requires s.main.Scan? && s.main.h < |s.lists|
    ensures Listed(DoTake(s).lists) <= Listed(s.lists)
  {
    SumUpdate(s.lists, s.main.h, [], Length);
  }

  lemma DecrCloses(s: State)
    requires Inv(s) && Enabled(s, DecrEntries) && s.cleaning
    ensures DoDecr(s).entries == 0
  {
    CleanCounts(s);
    ListedZero(s.lists);
  }

  /** ... and each of its steps brings that nearer, while no step of a tracer moves it away. */
  lemma ClosingComesNearer(s: State, a: Action)
    requires Inv(s) && Closing(s) && Enabled(s, a)
    ensures Closing(Do(s, a)) && 0 <= ToReturn(Do(s, a)) <= ToReturn(s) - if ByMain(a) then 1 else 0
  {
    hide Inv, Listed, ToReturn;
    StepKeepsInv(s, a);
    ToReturnNonneg(Do(s, a));
    if !ByMain(a) {
      QuietClosing(s, a);
      SameToReturn(s, Do(s, a));
      hide Do, Enabled;
    } else if Passes(a) {
      PassCloses(s, a);
    } else {
      PhaseCloses(s, a);
    }
  }

  lemma ToReturnNonneg(s: State)
    requires Inv(s)
    ensures 0 <= ToReturn(s)
  {
    PassNonneg(s);
    hide Inv;
  }

  lemma SameToReturn(s: State, s': State)
    requires s'.lists == s.lists && s'.main == s.main && s'.entries == s.entries && s'.cleaning == s.cleaning
    ensures ToReturn(s') == ToReturn(s)
  {
  }

  /** The steps between two passes. */
  lemma PhaseCloses(s: State, a: Action)
    requires Inv(s) && Closing(s) && Enabled(s, a) && ByMain(a) && !Passes(a)
    ensures ToReturn(Do(s, a)) < ToReturn(s)
  {
    if a.DecrEntries? && s.cleaning {
      DecrCloses(s);
    }
    hide Inv, Listed;
  }

  /** When it returns, every buffer ever added has been handled, once, in the order of its list; so the file
      of each head holds all the whole records that were read, and only the cut-off last one is left over. */
  lemma AllHandled(ss: seq<State>, acts: seq<Action>, n: nat, h: nat)
    requires Run(ss, acts) && n < |ss| && ss[n].main.Returned? && h < |ss[n].lists|
    ensures |ss[n].consumed| == |ss[n].added| == |ss[n].lists| && ss[n].consumed[h] == ss[n].added[h]
    ensures Records.Steps(InOnePiece([]), ss[n].consumed[h]) == InOnePiece(Join(ss[n].added[h]))
  {
    var s := ss[n];
    RunKeepsInv(ss, acts, n);
    CleanCounts(s);
    ListedZero(s.lists);
    assert s.lists[h] == [];
    CutsDoNotMatter(s.added[h]);
  }
}
