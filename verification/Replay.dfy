/** btreplay's sender and reaper threads for one input file: they share a mutex, a condition variable,
    two counters and two wait flags. One action is one critical section, or one step outside of one. */
module Replay {

  import opened Words
  import opened Bunches

  /** Where the submitting thread (replay_sub) stands. */
  datatype Sender =
    | Idle                           // before the loop test of process_bunch, or between bunches
    | Ready                          // past the loop test, before nfree_current
    | Blocked                        // in pthread_cond_wait of nfree_current
    | Woken                          // out of pthread_cond_wait, about to test again
    | GotFree(nfree: int)            // nfree_current has returned
    | Mapped(ids: seq<nat>, pkts: seq<Pkt>)  // iocbs_map has moved these and set them up for these packets
    | Submitted(ids: seq<nat>)       // io_submit has returned, naios_out not yet raised
    | Finished
    | Aborted                        // an assertion of process_bunch failed

  /** Where the reclaiming thread (replay_rec) stands. */
  datatype Reaper =
    | Check                          // before the first is_reap_done of reap_wait_aios
    | Lock                           // before its pthread_mutex_lock
    | Blocked
    | Woken
    | GotOut(n: int)                 // has read naios_out, before the last is_reap_done
    | Get(limit: int)                // before io_getevents
    | Have(events: seq<nat>, limit: int)  // io_getevents has returned these
    | Finished

  /** The control-block lists of struct thr_info and the two counters. */
  datatype Blocks = Blocks(free: seq<nat>, used: seq<nat>, naiosFree: int, naiosOut: int)

  /** The I/Os the kernel has taken and not yet handed back. */
  datatype Kernel = Kernel(inflight: multiset<nat>, completed: multiset<nat>)

  /** struct thr_info, what the kernel holds, and both threads; todo has the packets of the current
      bunch still to be sent, asserts says whether assertions are compiled in. */
  datatype State = State(
    naios: nat, b: Blocks, k: Kernel,
    sendWait: bool, reapWait: bool,
    sendDone: bool, reapDone: bool, signalDone: bool,
    todo: seq<Pkt>, sender: Sender, reaper: Reaper, asserts: bool)

  datatype Action =
    | NextBunch(pkts: seq<Pkt>)
    | SendFinish
    | LoopTest                       // of process_bunch, when it goes on
    | NfreeCurrent                   // one pass of the loop of nfree_current, under the mutex
    | SendSpurious
    | IocbsMap
    | IoSubmit
    | CountOut(wakes: Wakes)
    | ReapCheck
    | ReapLock                       // one pass of the loop of reap_wait_aios, under the mutex
    | ReapSpurious
    | ReapRecheck
    | IoGetevents(events: seq<nat>)
    | Reclaim(wakes: Wakes)
    | Complete(id: nat)              // the kernel finishes an I/O
    | SignalArrives

  /** Which waiting threads a pthread_cond_signal wakes: at least one if any is waiting. */
  datatype Wakes = Wakes(sender: bool, reaper: bool)

  /** Every control block of the file once. */
  function Ids(n: nat): multiset<nat> {
    if n == 0 then multiset{} else Ids(n - 1) + multiset{n - 1}
  }

  /** is_send_done, is_reap_done */
  predicate IsSendDone(s: State) { s.signalDone || s.sendDone }

  predicate IsReapDone(s: State) { s.sendDone && s.b.naiosOut == 0 }

  predicate MaySignal(s: State, w: Wakes) {
    (w.sender ==> s.sender.Blocked?) && (w.reaper ==> s.reaper.Blocked?) &&
    (s.sender.Blocked? || s.reaper.Blocked? ==> w.sender || w.reaper)
  }

  /** list_del of x. */
  function Unlink(s: seq<nat>, x: nat): seq<nat> {
    if s == [] then [] else if s[0] == x then s[1..] else [s[0]] + Unlink(s[1..], x)
  }

  /** The list that loses the blocks of the events, one after the other. */
  function UnlinkAll(s: seq<nat>, events: seq<nat>): seq<nat>
    decreases |events|
  {
    if events == [] then s else UnlinkAll(Unlink(s, events[0]), events[1..])
  }

  ghost predicate Init(s: State) {
    && s.naios > 0 && |s.b.free| == s.naios && multiset(s.b.free) == Ids(s.naios)
    && s.b.used == [] && s.b.naiosFree == s.naios && s.b.naiosOut == 0
    && !s.sendWait && !s.reapWait && !s.sendDone && !s.reapDone && !s.signalDone && s.todo == []
    && s.k.inflight == multiset{} && s.k.completed == multiset{} && s.sender.Idle? && s.reaper.Check?
  }

  ghost predicate Enabled(s: State, a: Action) {
    match a
    case NextBunch(pkts) => s.sender.Idle? && s.todo == [] && pkts != [] && !IsSendDone(s)
    case SendFinish => s.sender.Idle? && (s.todo == [] || s.signalDone)
    case LoopTest => s.sender.Idle? && s.todo != [] && !IsSendDone(s)
    case NfreeCurrent => s.sender.Ready? || s.sender.Woken?
    case SendSpurious => s.sender.Blocked?
    case IocbsMap => s.sender.GotFree?
    case IoSubmit => s.sender.Mapped?
    case CountOut(w) => s.sender.Submitted? && if s.reapWait then MaySignal(s, w) else w == Wakes(false, false)
    case ReapCheck => s.reaper.Check?
    case ReapLock => s.reaper.Lock? || s.reaper.Woken?
    case ReapSpurious => s.reaper.Blocked?
    case ReapRecheck => s.reaper.GotOut?
    case IoGetevents(events) =>
      s.reaper.Get? && 0 < |events| <= s.reaper.limit && multiset(events) <= s.k.completed
    case Reclaim(w) => s.reaper.Have? && if s.sendWait then MaySignal(s, w) else w == Wakes(false, false)
    case Complete(id) => id in s.k.inflight
    case SignalArrives => true
  }

  /** nfree_current, from taking the mutex to waiting or returning. */
  function DoNfree(s: State): State {
    if IsSendDone(s) then s.(sender := GotFree(0))
    else if s.b.naiosFree == 0 then s.(sendWait := true, sender := Sender.Blocked)
    else s.(sender := GotFree(s.b.naiosFree))
  }

  /** iocbs_map, with the assertions before and in it. Without them nothing is mapped or submitted when there is
      nothing to do, and process_bunch goes back to its loop test. */
  function DoMap(s: State): State
    requires s.sender.GotFree?
  {
    var ntodo := Min(s.sender.nfree, |s.todo|);
    if ntodo == 0 && !s.asserts then s.(sender := Idle)
    else if 0 < ntodo <= s.naios && ntodo <= |s.b.free| && ntodo <= s.b.naiosFree then
      s.(b := Blocks(s.b.free[ntodo..], s.b.used + s.b.free[..ntodo], s.b.naiosFree - ntodo, s.b.naiosOut),
         sender := Mapped(s.b.free[..ntodo], s.todo[..ntodo]))
    else
      s.(sender := Aborted)
  }

  function DoSubmit(s: State): State
    requires s.sender.Mapped?
  {
    s.(k := s.k.(inflight := s.k.inflight + multiset(s.sender.ids)), sender := Submitted(s.sender.ids))
  }

  /** The critical section of process_bunch, with its assertions. */
  function DoCount(s: State, w: Wakes): State
    requires s.sender.Submitted?
  {
    var n := |s.sender.ids|;
    s.(b := s.b.(naiosOut := s.b.naiosOut + n), reapWait := false, todo := if n <= |s.todo| then s.todo[n..] else [],
       sender := if s.b.naiosOut + n <= s.naios && n <= |s.todo| then Idle else Aborted,
       reaper := if w.reaper then Reaper.Woken else s.reaper)
  }

  function DoReapCheck(s: State): State {
    if IsReapDone(s) then s.(reaper := Reaper.Finished, reapDone := true) else s.(reaper := Lock)
  }

  /** reap_wait_aios, from taking the mutex to waiting or unlocking. */
  function DoReapLock(s: State): State {
    if s.b.naiosOut == 0 then s.(reapWait := true, reaper := Reaper.Blocked) else s.(reaper := GotOut(s.b.naiosOut))
  }

  function DoReapRecheck(s: State): State
    requires s.reaper.GotOut?
  {
    if IsReapDone(s) then s.(reaper := Reaper.Finished, reapDone := true) else s.(reaper := Get(s.reaper.n))
  }

  function DoGetevents(s: State, events: seq<nat>): State
    requires s.reaper.Get?
  {
    s.(k := s.k.(completed := s.k.completed - multiset(events)), reaper := Have(events, s.reaper.limit))
  }

  /** The critical section of reclaim_ios. */
  function DoReclaim(s: State, w: Wakes): State
    requires s.reaper.Have?
  {
    var out := s.b.naiosOut - |s.reaper.events|;
    var limit := Min(s.reaper.limit, out);
    s.(b := Blocks(s.b.free + s.reaper.events, UnlinkAll(s.b.used, s.reaper.events),
                   s.b.naiosFree + |s.reaper.events|, out),
       sendWait := false,
       sender := if w.sender then Sender.Woken else s.sender,
       reaper := if limit != 0 then Get(limit) else Check)
  }

  function DoComplete(s: State, id: nat): State {
    s.(k := Kernel(s.k.inflight - multiset{id}, s.k.completed + multiset{id}))
  }

  ghost function Do(s: State, a: Action): State
    requires Enabled(s, a)
  {
    match a
    case NextBunch(pkts) => s.(todo := pkts)
    case SendFinish => s.(sendDone := true, sender := Sender.Finished)
    case LoopTest => s.(sender := Ready)
    case NfreeCurrent => DoNfree(s)
    case SendSpurious => s.(sender := Sender.Woken)
    case IocbsMap => DoMap(s)
    case IoSubmit => DoSubmit(s)
    case CountOut(w) => DoCount(s, w)
    case ReapCheck => DoReapCheck(s)
    case ReapLock => DoReapLock(s)
    case ReapSpurious => s.(reaper := Reaper.Woken)
    case ReapRecheck => DoReapRecheck(s)
    case IoGetevents(events) => DoGetevents(s, events)
    case Reclaim(w) => DoReclaim(s, w)
    case Complete(id) => DoComplete(s, id)
    case SignalArrives => s.(signalDone := true)
  }

  // ---------- what every step keeps ----------

  /** Control blocks the sender has taken but not yet added to naios_out. */
  function Uncounted(s: State): seq<nat> {
    match s.sender
    case Mapped(ids, _) => ids
    case Submitted(ids) => ids
    case _ => []
  }

  function Unsubmitted(s: State): seq<nat> {
    if s.sender.Mapped? then s.sender.ids else []
  }

  function Events(s: State): seq<nat> {
    if s.reaper.Have? then s.reaper.events else []
  }

  /** Each control block is in exactly one list, and the counters say how many are where. */
  ghost predicate Counted(naios: nat, b: Blocks, uncounted: int) {
    && naios > 0
    && multiset(b.free) + multiset(b.used) == Ids(naios)
    && |b.free| + |b.used| == naios
    && b.naiosFree == |b.free| && b.naiosOut >= 0
    && |b.used| == b.naiosOut + uncounted
  }

  /** A used block is unsubmitted, with the kernel, or in the reaper's hands, and never in two of these. */
  ghost predicate Placed(b: Blocks, k: Kernel, unsubmitted: seq<nat>, events: seq<nat>) {
    multiset(b.used) == multiset(unsubmitted) + k.inflight + k.completed + multiset(events)
  }

  ghost predicate Lists(s: State) {
    Counted(s.naios, s.b, |Uncounted(s)|) && Placed(s.b, s.k, Unsubmitted(s), Events(s))
  }

  ghost predicate SenderKnows(s: State) {
    match s.sender
    case Blocked => s.sendWait && s.b.naiosFree == 0 && s.todo != []
    case Ready => s.todo != []
    case Woken => s.todo != []
    case GotFree(n) => 0 <= n <= s.b.naiosFree && s.todo != [] && (n == 0 ==> s.signalDone)
    case Mapped(ids, pkts) => 0 < |ids| <= |s.todo| && pkts == s.todo[..|ids|]
    case Submitted(ids) => 0 < |ids| <= |s.todo|
    case Finished => s.todo == [] || s.signalDone
    case Aborted => s.signalDone && s.asserts
    case _ => true
  }

  ghost predicate ReaperKnows(s: State) {
    match s.reaper
    case Blocked => s.reapWait && s.b.naiosOut == 0
    case GotOut(n) => 0 < n <= s.b.naiosOut
    case Get(limit) => 0 < limit <= s.b.naiosOut
    case Have(events, limit) => 0 < |events| <= limit <= s.b.naiosOut
    case Finished => s.sendDone && s.b.naiosOut == 0
    case _ => true
  }

  /** A wait flag is only set while the thread that has set it waits, or has just been woken by nobody; a sender
      that is woken by nobody after a signal leaves it set. */
  ghost predicate FlagsKnow(s: State) {
    && (s.reapWait ==> (s.reaper.Blocked? || s.reaper.Woken?) && s.b.naiosOut == 0)
    && (s.sendWait ==> s.sender.Blocked? || s.sender.Woken? || s.signalDone)
    && (s.sendWait && s.sender.Woken? ==> s.b.naiosFree == 0)
  }

  ghost predicate Inv(s: State) {
    && Lists(s) && SenderKnows(s) && ReaperKnows(s) && FlagsKnow(s)
    && (s.sendDone <==> s.sender.Finished?) && (s.reapDone <==> s.reaper.Finished?)
  }

  lemma {:induction false} UnlinkFacts(s: seq<nat>, x: nat)
    requires x in multiset(s)
    ensures multiset(Unlink(s, x)) == multiset(s) - multiset{x} && |Unlink(s, x)| == |s| - 1
  {
    assert s == [s[0]] + s[1..];
    if s[0] != x {
      UnlinkFacts(s[1..], x);
    }
  }

  lemma {:induction false} UnlinkAllFacts(s: seq<nat>, events: seq<nat>)
    requires multiset(events) <= multiset(s)
    ensures multiset(UnlinkAll(s, events)) == multiset(s) - multiset(events)
    ensures |UnlinkAll(s, events)| == |s| - |events|
    decreases |events|
  {
    if events != [] {
      assert events == [events[0]] + events[1..];
      assert events[0] in multiset(events);
      UnlinkFacts(s, events[0]);
      UnlinkAllFacts(Unlink(s, events[0]), events[1..]);
    }
  }

  lemma InitInv(s: State)
    requires Init(s)
    ensures Inv(s)
  {
  }

  /** A signal reaches nobody but the thread it is meant for. */
  lemma SignalReachesTheRightThread(s: State, a: Action)
    requires Inv(s) && Enabled(s, a)
    ensures a.CountOut? ==> !a.wakes.sender && (s.reaper.Blocked? ==> a.wakes.reaper)
    ensures a.Reclaim? ==> !a.wakes.reaper && (s.sender.Blocked? ==> a.wakes.sender)
  {
  }

  lemma CountsNonneg(naios: nat, b: Blocks, n: int)
    requires Counted(naios, b, n)
    ensures b.naiosFree == |b.free| <= naios && 0 <= b.naiosOut <= naios - n && |b.used| == b.naiosOut + n
  {
  }

  lemma KeepNfree(s: State)
    requires Inv(s) && Enabled(s, NfreeCurrent)
    ensures Inv(DoNfree(s))
  {
    hide Counted, Placed;
    CountsNonneg(s.naios, s.b, |Uncounted(s)|);
  }

  lemma MapBlocks(naios: nat, b: Blocks, k: Kernel, n: nat, events: seq<nat>)
    requires Counted(naios, b, 0) && Placed(b, k, [], events) && n <= |b.free|
    ensures var b' := Blocks(b.free[n..], b.used + b.free[..n], b.naiosFree - n, b.naiosOut);
      Counted(naios, b', n) && Placed(b', k, b.free[..n], events)
  {
    assert b.free == b.free[..n] + b.free[n..];
  }

  lemma KeepMap(s: State)
    requires Inv(s) && Enabled(s, IocbsMap)
    ensures Inv(DoMap(s))
    ensures DoMap(s).sender.Aborted? <==> s.sender.nfree == 0 && s.asserts
  {
    hide Counted, Placed;
    CountsNonneg(s.naios, s.b, 0);
    var ntodo := Min(s.sender.nfree, |s.todo|);
    MapBlocks(s.naios, s.b, s.k, ntodo, Events(s));
  }

  lemma SubmitBlocks(b: Blocks, k: Kernel, ids: seq<nat>, events: seq<nat>)
    requires Placed(b, k, ids, events)
    ensures Placed(b, k.(inflight := k.inflight + multiset(ids)), [], events)
  {
  }

  lemma KeepSubmit(s: State)
    requires Inv(s) && Enabled(s, IoSubmit)
    ensures Inv(DoSubmit(s))
  {
    hide Counted, Placed;
    SubmitBlocks(s.b, s.k, s.sender.ids, Events(s));
  }

  lemma CountBlocks(naios: nat, b: Blocks, k: Kernel, n: nat, events: seq<nat>)
    requires Counted(naios, b, n) && Placed(b, k, [], events)
    ensures Counted(naios, b.(naiosOut := b.naiosOut + n), 0) && b.naiosOut + n <= naios
    ensures Placed(b.(naiosOut := b.naiosOut + n), k, [], events)
  {
  }

  lemma KeepCount(s: State, w: Wakes)
    requires Inv(s) && Enabled(s, CountOut(w))
    ensures Inv(DoCount(s, w)) && DoCount(s, w).sender.Idle?
  {
    hide Counted, Placed;
    CountBlocks(s.naios, s.b, s.k, |s.sender.ids|, Events(s));
  }

  lemma KeepReapCheck(s: State)
    requires Inv(s) && s.reaper.Check?
    ensures Inv(DoReapCheck(s))
  {
    hide Counted, Placed;
    CountsNonneg(s.naios, s.b, |Uncounted(s)|);
  }

  lemma KeepReapLock(s: State)
    requires Inv(s) && (s.reaper.Lock? || s.reaper.Woken?)
    ensures Inv(DoReapLock(s))
  {
    hide Counted, Placed;
    CountsNonneg(s.naios, s.b, |Uncounted(s)|);
  }

  lemma KeepReapRecheck(s: State)
    requires Inv(s) && s.reaper.GotOut?
    ensures Inv(DoReapRecheck(s))
  {
    hide Counted, Placed;
    CountsNonneg(s.naios, s.b, |Uncounted(s)|);
  }

  lemma TakeEvents(b: Blocks, k: Kernel, unsubmitted: seq<nat>, events: seq<nat>)
    requires Placed(b, k, unsubmitted, []) && multiset(events) <= k.completed
    ensures Placed(b, k.(completed := k.completed - multiset(events)), unsubmitted, events)
  {
    assert k.completed == (k.completed - multiset(events)) + multiset(events);
  }

  lemma KeepGetevents(s: State, events: seq<nat>)
    requires Inv(s) && Enabled(s, IoGetevents(events))
    ensures Inv(DoGetevents(s, events))
  {
    hide Counted, Placed;
    TakeEvents(s.b, s.k, Unsubmitted(s), events);
  }

  lemma ReclaimBlocks(naios: nat, b: Blocks, k: Kernel, n: nat, unsubmitted: seq<nat>, events: seq<nat>)
    requires Counted(naios, b, n) && Placed(b, k, unsubmitted, events) && |events| <= b.naiosOut
    ensures var b' := Blocks(b.free + events, UnlinkAll(b.used, events), b.naiosFree + |events|, b.naiosOut - |events|);
      Counted(naios, b', n) && Placed(b', k, unsubmitted, [])
  {
    assert multiset(events) <= multiset(b.used);
    UnlinkAllFacts(b.used, events);
    hide UnlinkAll;
    MovedOver(b.free, b.used, events, UnlinkAll(b.used, events));
  }

  lemma MovedOver(free: seq<nat>, used: seq<nat>, events: seq<nat>, left: seq<nat>)
    requires multiset(events) <= multiset(used) && multiset(left) == multiset(used) - multiset(events)
    ensures multiset(free + events) + multiset(left) == multiset(free) + multiset(used)
  {
  }

  lemma KeepReclaim(s: State, w: Wakes)
    requires Inv(s) && Enabled(s, Reclaim(w))
    ensures Inv(DoReclaim(s, w))
  {
    hide Counted, Placed;
    CountsNonneg(s.naios, s.b, |Uncounted(s)|);
    ReclaimBlocks(s.naios, s.b, s.k, |Uncounted(s)|, Unsubmitted(s), s.reaper.events);
  }

  lemma CompleteBlock(b: Blocks, k: Kernel, id: nat, unsubmitted: seq<nat>, events: seq<nat>)
    requires Placed(b, k, unsubmitted, events) && id in k.inflight
    ensures Placed(b, Kernel(k.inflight - multiset{id}, k.completed + multiset{id}), unsubmitted, events)
  {
  }

  lemma KeepComplete(s: State, id: nat)
    requires Inv(s) && Enabled(s, Complete(id))
    ensures Inv(DoComplete(s, id))
  {
    hide Counted, Placed;
    CompleteBlock(s.b, s.k, id, Unsubmitted(s), Events(s));
  }

  lemma KeepOther(s: State)
    requires Inv(s)
    ensures s.sender.Idle? && s.todo == [] ==> forall pkts :: pkts != [] ==> Inv(s.(todo := pkts))
    ensures s.sender.Idle? && s.todo != [] ==> Inv(s.(sender := Ready))
    ensures s.sender.Idle? && (s.todo == [] || s.signalDone) ==> Inv(s.(sendDone := true, sender := Sender.Finished))
    ensures s.sender.Blocked? ==> Inv(s.(sender := Sender.Woken))
    ensures s.reaper.Blocked? ==> Inv(s.(reaper := Reaper.Woken))
    ensures Inv(s.(signalDone := true))
  {
    hide Counted, Placed;
  }

  lemma StepKeepsInv(s: State, a: Action)
    requires Inv(s) && Enabled(s, a)
    ensures Inv(Do(s, a))
  {
    hide Inv, DoNfree, DoMap, DoSubmit, DoCount;
    hide DoReapCheck, DoReapLock, DoReapRecheck, DoGetevents, DoReclaim, DoComplete;
    match a
    case NfreeCurrent => KeepNfree(s);
    case IocbsMap => KeepMap(s);
    case IoSubmit => KeepSubmit(s);
    case CountOut(w) => KeepCount(s, w);
    case ReapCheck => KeepReapCheck(s);
    case ReapLock => KeepReapLock(s);
    case ReapRecheck => KeepReapRecheck(s);
    case IoGetevents(events) => KeepGetevents(s, events);
    case Reclaim(w) => KeepReclaim(s, w);
    case Complete(id) => KeepComplete(s, id);
    case _ => KeepOther(s);
  }

  // ---------- whole runs ----------

  /** ss are the states of the steps acts from ss[0] on. */
  ghost predicate Steps(ss: seq<State>, acts: seq<Action>) {
    |ss| == |acts| + 1 && forall i :: 0 <= i < |acts| ==> Enabled(ss[i], acts[i]) && ss[i + 1] == Do(ss[i], acts[i])
  }

  ghost predicate Run(ss: seq<State>, acts: seq<Action>) {
    Steps(ss, acts) && Init(ss[0])
  }

  lemma AfterFirst(ss: seq<State>, acts: seq<Action>)
    requires Steps(ss, acts) && acts != []
    ensures Steps(ss[1..], acts[1..]) && ss[1] == Do(ss[0], acts[0]) && Enabled(ss[0], acts[0])
  {
    hide Do, Enabled;
    var rest, later := ss[1..], acts[1..];
    assert forall i :: 0 <= i < |later| ==> rest[i] == ss[i + 1] && later[i] == acts[i + 1];
  }

  lemma {:induction false} RunKeepsInv(ss: seq<State>, acts: seq<Action>, n: nat)
    requires Run(ss, acts) && n < |ss|
    ensures Inv(ss[n])
  {
    if n == 0 {
      InitInv(ss[0]);
    } else {
      RunKeepsInv(ss, acts, n - 1);
      StepKeepsInv(ss[n - 1], acts[n - 1]);
    }
  }

  lemma {:induction false} EveryIdOnce(n: nat, id: nat)
    ensures Ids(n)[id] == if id < n then 1 else 0
  {
    if n > 0 {
      EveryIdOnce(n - 1, id);
    }
  }

  /** At every point of every interleaving: the counters add up, each control block is in exactly one list,
      nobody waits who need not, and the two threads do not wait at the same time. */
  lemma Safe(ss: seq<State>, acts: seq<Action>, n: nat)
    requires Run(ss, acts) && n < |ss|
    ensures var s := ss[n];
      && s.b.naiosFree + s.b.naiosOut + |Uncounted(s)| == s.naios && s.b.naiosFree == |s.b.free| && s.b.naiosOut >= 0
      && (forall id: nat :: id < s.naios ==> multiset(s.b.free)[id] + multiset(s.b.used)[id] == 1)
      && (s.sender.Blocked? ==> s.sendWait && s.b.naiosFree == 0)
      && (s.reaper.Blocked? ==> s.reapWait && s.b.naiosOut == 0)
      && !(s.sender.Blocked? && s.reaper.Blocked?)
      && (s.sender.Aborted? ==> s.signalDone && s.asserts)
      && (s.reapWait ==> s.reaper.Blocked? || s.reaper.Woken?)
      && (s.sendWait ==> s.sender.Blocked? || s.sender.Woken? || s.signalDone)
  {
    RunKeepsInv(ss, acts, n);
    var s := ss[n];
    forall id: nat | id < s.naios ensures multiset(s.b.free)[id] + multiset(s.b.used)[id] == 1 {
      EveryIdOnce(s.naios, id);
    }
  }

  /** io_getevents is only asked for completions that are still due. */
  lemma CompletionsAreDue(s: State)
    requires Inv(s) && s.reaper.Get?
    ensures 0 < s.reaper.limit <= s.b.naiosOut <= |s.k.inflight| + |s.k.completed|
  {
    var m := multiset(Unsubmitted(s)) + s.k.inflight + s.k.completed;
    assert multiset(s.b.used) == m;
    assert |multiset(s.b.used)| == |s.b.used| && |multiset(Unsubmitted(s))| == |Unsubmitted(s)|;
  }

  /** When the reaper is done, every control block is back on the free list. */
  lemma AllReturned(s: State)
    requires Inv(s) && s.reaper.Finished?
    ensures s.b.used == [] && s.b.naiosFree == s.naios && s.sender.Finished?
  {
  }

  // ---------- progress ----------

  /** The steps of the reaper and of the kernel, spurious wake-ups aside. */
  predicate Serves(a: Action) {
    a.ReapCheck? || a.ReapLock? || a.ReapRecheck? || a.IoGetevents? || a.Reclaim? || a.Complete?
  }

  function StepsToGo(s: State): nat {
    |s.k.inflight| + match s.reaper
      case Check => 5
      case Lock => 4
      case Woken => 4
      case GotOut(_) => 3
      case Get(_) => 2
      case Have(_, _) => 1
      case Blocked => 0
      case Finished => 0
  }

  /** Before io_getevents a completion is there or still to come. */
  lemma NextCompletion(s: State) returns (a: Action)
    requires Inv(s) && s.reaper.Get?
    ensures Serves(a) && Enabled(s, a)
  {
    CompletionsAreDue(s);
    if s.k.completed != multiset{} {
      var id :| id in s.k.completed;
      a := IoGetevents([id]);
    } else {
      var id :| id in s.k.inflight;
      a := Complete(id);
    }
  }

  /** A sender that waits is served: some step of the reaper or the kernel is always possible ... */
  lemma ServiceIsPossible(s: State) returns (a: Action)
    requires Inv(s) && s.sender.Blocked?
    ensures Serves(a) && Enabled(s, a)
  {
    match s.reaper
    case Check => a := ReapCheck;
    case Lock => a := ReapLock;
    case Woken => a := ReapLock;
    case GotOut(_) => a := ReapRecheck;
    case Get(limit) => a := NextCompletion(s);
    case Have(_, _) => a := Reclaim(if s.sendWait then Wakes(true, false) else Wakes(false, false));
    case Blocked => assert false;
    case Finished => assert false;
  }

  lemma OneLess(m: multiset<nat>, id: nat)
    requires id in m
    ensures |m - multiset{id}| == |m| - 1
  {
    assert m == (m - multiset{id}) + multiset{id};
  }

  /** What the steps of the reaper do to the measure while the sender waits. */
  lemma ReaperServes(s: State)
    requires ReaperKnows(s) && s.sender.Blocked? && !s.sendDone
    ensures s.reaper.Check? ==> StepsToGo(DoReapCheck(s)) < StepsToGo(s) && DoReapCheck(s).sender.Blocked?
    ensures s.reaper.Lock? || s.reaper.Woken? ==>
      StepsToGo(DoReapLock(s)) < StepsToGo(s) && DoReapLock(s).sender.Blocked?
    ensures s.reaper.GotOut? ==> StepsToGo(DoReapRecheck(s)) < StepsToGo(s) && DoReapRecheck(s).sender.Blocked?
  {
  }

  lemma EventsServe(s: State, a: Action)
    requires s.sender.Blocked? && s.sendWait && Enabled(s, a) && (s.reaper.Blocked? ==> s.reapWait)
    requires a.Reclaim? ==> a.wakes.sender
    ensures a.IoGetevents? ==>
      StepsToGo(DoGetevents(s, a.events)) < StepsToGo(s) && DoGetevents(s, a.events).sender.Blocked?
    ensures a.Reclaim? ==> DoReclaim(s, a.wakes).sender.Woken?
  {
    hide UnlinkAll;
  }

  lemma WaitingSender(s: State)
    requires Inv(s) && s.sender.Blocked?
    ensures s.sendWait && !s.sendDone && ReaperKnows(s)
  {
  }

  /** ... and only so many can happen before the sender is woken. */
  lemma ServiceEnds(s: State, a: Action)
    requires Inv(s) && s.sender.Blocked? && Serves(a) && Enabled(s, a)
    ensures var s' := Do(s, a); s'.sender.Woken? || (s'.sender.Blocked? && StepsToGo(s') < StepsToGo(s))
  {
    WaitingSender(s);
    SignalReachesTheRightThread(s, a);
    ReaperServes(s);
    EventsServe(s, a);
    hide Inv, DoReapCheck, DoReapLock, DoReapRecheck, DoGetevents, DoReclaim;
    if a.Complete? {
      OneLess(s.k.inflight, a.id);
    }
  }

  // ---------- progress of a bunch ----------

  /** The steps that are neither taken before or after a bunch nor come from outside, spurious wake-ups aside. */
  predicate Works(a: Action) {
    !(a.NextBunch? || a.SendFinish? || a.SignalArrives? || a.SendSpurious? || a.ReapSpurious?)
  }

  /** What the place of the sender adds to the measure; a signal makes its loop test the last one. */
  function SenderToGo(sender: Sender, signalDone: bool): int {
    match sender
    case Idle => if signalDone then 0 else 5
    case Ready => 4
    case Woken => 4
    case Blocked => 3
    case GotFree(_) => 3
    case Mapped(_, _) => 2
    case Submitted(ids) => 1 - |ids|
    case _ => 0
  }

  function ReaperToGo(reaper: Reaper): int {
    match reaper
    case Check => 4
    case Lock => 3
    case Woken => 3
    case GotOut(_) => 2
    case Get(_) => 1
    case _ => 0
  }

  /** How far the sender and the I/Os in flight are from the end of the bunch. */
  function BunchToGo(s: State): int {
    15 * |s.todo| + SenderToGo(s.sender, s.signalDone) + |s.k.inflight| + 6 * s.b.naiosOut + ReaperToGo(s.reaper)
  }

  lemma BunchNonneg(s: State)
    requires Inv(s)
    ensures 0 <= BunchToGo(s)
  {
    hide Placed;
    CountsNonneg(s.naios, s.b, |Uncounted(s)|);
  }

  lemma LoopTestWorks(s: State)
    requires Enabled(s, LoopTest)
    ensures BunchToGo(s.(sender := Ready)) < BunchToGo(s)
  {
  }

  lemma NfreeWorks(s: State)
    requires Enabled(s, NfreeCurrent)
    ensures BunchToGo(DoNfree(s)) < BunchToGo(s)
  {
  }

  lemma MapMoves(s: State)
    requires SenderKnows(s) && s.sender.GotFree?
    ensures var s' := DoMap(s);
      && s'.todo == s.todo && s'.k == s.k && s'.b.naiosOut == s.b.naiosOut && s'.reaper == s.reaper
      && s'.signalDone == s.signalDone && (s'.sender.Mapped? || s'.sender.Aborted? || s'.sender.Idle?)
      && (s'.sender.Idle? ==> s.signalDone)
  {
  }

  lemma MapWorks(s: State)
    requires SenderKnows(s) && s.sender.GotFree?
    ensures BunchToGo(DoMap(s)) < BunchToGo(s)
  {
    MapMoves(s);
    hide DoMap, SenderKnows;
  }

  lemma SubmitWorks(s: State)
    requires SenderKnows(s) && s.sender.Mapped?
    ensures BunchToGo(DoSubmit(s)) < BunchToGo(s)
  {
    var ids := s.sender.ids;
    assert |s.k.inflight + multiset(ids)| == |s.k.inflight| + |multiset(ids)| && |multiset(ids)| == |ids|;
  }

  lemma CountWorks(s: State, w: Wakes)
    requires Inv(s) && Enabled(s, CountOut(w))
    ensures BunchToGo(DoCount(s, w)) < BunchToGo(s)
  {
    hide Counted, Placed;
    CountsNonneg(s.naios, s.b, |Uncounted(s)|);
  }

  lemma ReapCheckWorks(s: State)
    requires s.reaper.Check?
    ensures BunchToGo(DoReapCheck(s)) < BunchToGo(s)
  {
  }

  lemma ReapLockWorks(s: State)
    requires s.reaper.Lock? || s.reaper.Woken?
    ensures BunchToGo(DoReapLock(s)) < BunchToGo(s)
  {
  }

  lemma ReapRecheckWorks(s: State)
    requires s.reaper.GotOut?
    ensures BunchToGo(DoReapRecheck(s)) < BunchToGo(s)
  {
  }

  lemma GeteventsWorks(s: State, events: seq<nat>)
    requires s.reaper.Get?
    ensures BunchToGo(DoGetevents(s, events)) < BunchToGo(s)
  {
  }

  lemma ReclaimWorks(s: State, w: Wakes)
    requires Inv(s) && Enabled(s, Reclaim(w))
    ensures BunchToGo(DoReclaim(s, w)) < BunchToGo(s)
  {
    hide Lists, SenderKnows, UnlinkAll;
  }

  lemma OutsideWorks(s: State, a: Action)
    requires Enabled(s, a) && (a.Complete? || a.SignalArrives? || a.SendSpurious? || a.ReapSpurious?)
    ensures BunchToGo(Do(s, a)) <= BunchToGo(s) + if a.Complete? then -1 else if a.SignalArrives? then 0 else 3
  {
    if a.Complete? {
      OneLess(s.k.inflight, a.id);
    }
  }

  /** Every step of the sender, of the reaper and of the kernel brings the bunch nearer to its end; a spurious
      wake-up costs at most three of them. */
  lemma BunchComesNearer(s: State, a: Action)
    requires Inv(s) && Enabled(s, a) && !a.NextBunch? && !a.SendFinish?
    ensures BunchToGo(Do(s, a)) <= BunchToGo(s) + if Works(a) then -1 else if a.SignalArrives? then 0 else 3
  {
    SenderFacts(s);
    hide Inv, BunchToGo, DoNfree, DoMap, DoSubmit, DoCount, DoReclaim;
    hide DoReapCheck, DoReapLock, DoReapRecheck, DoGetevents;
    match a
    case IoSubmit => SubmitWorks(s);
    case CountOut(w) => CountWorks(s, w);
    case Reclaim(w) => ReclaimWorks(s, w);
    case LoopTest => LoopTestWorks(s);
    case NfreeCurrent => NfreeWorks(s);
    case IocbsMap => MapWorks(s);
    case ReapCheck => ReapCheckWorks(s);
    case ReapLock => ReapLockWorks(s);
    case ReapRecheck => ReapRecheckWorks(s);
    case IoGetevents(events) => GeteventsWorks(s, events);
    case _ => OutsideWorks(s, a);
  }

  lemma SenderFacts(s: State)
    requires Inv(s)
    ensures SenderKnows(s) && ReaperKnows(s)
  {
  }

  /** Until all packets of a bunch are submitted, or a signal or a failed assertion has ended it, there is such
      a step. */
  lemma BunchGoesOn(s: State) returns (a: Action)
    requires Inv(s) && !s.sender.Finished? && !s.sender.Aborted?
    requires s.sender.Idle? ==> s.todo != [] && !s.signalDone
    ensures Works(a) && Enabled(s, a)
  {
    match s.sender
    case Idle => a := LoopTest;
    case Ready => a := NfreeCurrent;
    case Woken => a := NfreeCurrent;
    case GotFree(_) => a := IocbsMap;
    case Mapped(_, _) => a := IoSubmit;
    case Submitted(_) => a := CountOut(Wakes(false, s.reapWait && s.reaper.Blocked?));
    case Blocked => a := ServiceIsPossible(s);
  }

  function Spurious(acts: seq<Action>): nat {
    if acts == [] then 0
    else (if acts[0].SendSpurious? || acts[0].ReapSpurious? then 1 else 0) + Spurious(acts[1..])
  }

  function Worked(acts: seq<Action>): nat {
    if acts == [] then 0 else (if Works(acts[0]) then 1 else 0) + Worked(acts[1..])
  }

  // ---------- what is submitted ----------

  /** The packets of the bunches that are read, one bunch after the other. */
  function Given(acts: seq<Action>): seq<Pkt> {
    if acts == [] then [] else (if acts[0].NextBunch? then acts[0].pkts else []) + Given(acts[1..])
  }

  function Goes(s: State, a: Action): seq<Pkt> {
    if a.IoSubmit? && s.sender.Mapped? then s.sender.pkts else []
  }

  /** The packets that go to io_submit, call by call. */
  function Sent(ss: seq<State>, acts: seq<Action>): seq<Pkt>
    requires |ss| > |acts|
    decreases |acts|
  {
    if acts == [] then [] else Goes(ss[0], acts[0]) + Sent(ss[1..], acts[1..])
  }

  /** The packets of the bunch at hand that are still to go. */
  function Unsent(s: State): seq<Pkt> {
    if s.sender.Submitted? && |s.sender.ids| <= |s.todo| then s.todo[|s.sender.ids|..] else s.todo
  }

  /** What is left of the bunch is only touched where it is submitted and counted. */
  lemma ReapCheckUnsent(s: State)
    ensures DoReapCheck(s).todo == s.todo && DoReapCheck(s).sender == s.sender
  {
    hide IsReapDone;
  }

  lemma ReapRecheckUnsent(s: State)
    requires s.reaper.GotOut?
    ensures DoReapRecheck(s).todo == s.todo && DoReapRecheck(s).sender == s.sender
  {
    hide IsReapDone;
  }

  lemma ReapLockUnsent(s: State)
    ensures DoReapLock(s).todo == s.todo && DoReapLock(s).sender == s.sender
  {
  }

  lemma SameUnsent(s: State, s': State)
    requires s'.todo == s.todo && s'.sender == s.sender
    ensures Unsent(s') == Unsent(s)
  {
  }

  lemma EventsUnsent(s: State, a: Action)
    requires Enabled(s, a) && (a.IoGetevents? || a.Reclaim? || a.Complete?)
    ensures Unsent(Do(s, a)) == Unsent(s)
  {
    hide DoNfree, DoMap, DoSubmit, DoCount, DoReapCheck, DoReapLock, DoReapRecheck, UnlinkAll, IsSendDone, IsReapDone;
  }

  lemma OutsideUnsent(s: State, a: Action)
    requires Enabled(s, a)
    requires a.NextBunch? || a.SendFinish? || a.LoopTest? || a.SendSpurious? || a.ReapSpurious? || a.SignalArrives?
    ensures Unsent(Do(s, a)) == Unsent(s) + if a.NextBunch? then a.pkts else []
  {
    assert Unsent(s) + [] == Unsent(s);
    hide IsSendDone;
  }

  lemma NfreeUnsent(s: State)
    requires s.sender.Ready? || s.sender.Woken?
    ensures Unsent(DoNfree(s)) == Unsent(s)
  {
  }

  lemma MapUnsent(s: State)
    requires SenderKnows(s) && s.sender.GotFree?
    ensures Unsent(DoMap(s)) == Unsent(s)
  {
    MapMoves(s);
    hide DoMap;
  }

  lemma SubmitUnsent(s: State)
    requires SenderKnows(s) && s.sender.Mapped?
    ensures Unsent(s) == s.sender.pkts + Unsent(DoSubmit(s)) && |s.sender.pkts| == |s.sender.ids| > 0
  {
  }

  lemma CountUnsent(s: State, w: Wakes)
    requires SenderKnows(s) && s.sender.Submitted?
    ensures Unsent(DoCount(s, w)) == Unsent(s)
  {
  }

  lemma StepConserves(s: State, a: Action)
    requires Inv(s) && Enabled(s, a)
    ensures Unsent(s) + (if a.NextBunch? then a.pkts else []) == Goes(s, a) + Unsent(Do(s, a))
    ensures a.IoSubmit? ==> s.sender.Mapped? && |Goes(s, a)| == |s.sender.ids| > 0
  {
    SenderFacts(s);
    assert Unsent(s) + [] == Unsent(s) == [] + Unsent(s);
    hide Inv, Unsent, ReaperKnows, MaySignal, IsSendDone, DoNfree, DoMap, DoSubmit, DoCount;
    hide DoReapCheck, DoReapLock, DoReapRecheck, DoGetevents, DoReclaim, DoComplete;
    match a
    case NfreeCurrent => NfreeUnsent(s);
    case IocbsMap => MapUnsent(s);
    case IoSubmit => SubmitUnsent(s);
    case CountOut(w) => CountUnsent(s, w);
    case ReapCheck => ReapCheckUnsent(s); SameUnsent(s, Do(s, a));
    case ReapLock => ReapLockUnsent(s); SameUnsent(s, Do(s, a));
    case ReapRecheck => ReapRecheckUnsent(s); SameUnsent(s, Do(s, a));
    case Complete(_) => EventsUnsent(s, a);
    case IoGetevents(_) => EventsUnsent(s, a);
    case Reclaim(_) => EventsUnsent(s, a);
    case _ => OutsideUnsent(s, a);
    assert Unsent(Do(s, a)) + [] == Unsent(Do(s, a)) == [] + Unsent(Do(s, a));
  }

  /** Over any steps: what was left and what has been read since is what has gone to io_submit and what is left. */
  lemma {:induction false} StepsConserve(ss: seq<State>, acts: seq<Action>)
    requires Steps(ss, acts) && Inv(ss[0])
    ensures Unsent(ss[0]) + Given(acts) == Sent(ss, acts) + Unsent(ss[|acts|])
    decreases |acts|
  {
    hide Inv, Unsent, Do, Enabled, Goes;
    if acts != [] {
      StepKeepsInv(ss[0], acts[0]);
      StepConserves(ss[0], acts[0]);
      var rest, later := ss[1..], acts[1..];
      AfterFirst(ss, acts);
      StepsConserve(rest, later);
      Joined(Unsent(ss[0]), if acts[0].NextBunch? then acts[0].pkts else [], Given(later), Goes(ss[0], acts[0]),
             Unsent(ss[1]), Sent(rest, later), Unsent(ss[|acts|]));
    }
  }

  lemma Joined(u0: seq<Pkt>, n: seq<Pkt>, given: seq<Pkt>, g: seq<Pkt>, u1: seq<Pkt>, sent: seq<Pkt>, u: seq<Pkt>)
    requires u0 + n == g + u1 && u1 + given == sent + u
    ensures u0 + (n + given) == (g + sent) + u
  {
    assert u0 + (n + given) == (u0 + n) + given == g + (u1 + given);
  }

  /** Each call of io_submit takes as many packets as there were free blocks when nfree_current looked, or all. */
  lemma AsManyAsFree(s: State, t: State)
    requires Inv(s) && Enabled(s, NfreeCurrent) && DoNfree(s).sender.GotFree? && !s.signalDone
    requires Inv(t) && t.sender == DoNfree(s).sender && t.todo == s.todo
    ensures DoMap(t).sender.Mapped? && |DoMap(t).sender.ids| == |DoMap(t).sender.pkts| == Min(|s.b.free|, |s.todo|)
  {
    CountsNonneg(s.naios, s.b, |Uncounted(s)|);
    CountsNonneg(t.naios, t.b, |Uncounted(t)|);
    SenderFacts(t);
    hide Inv, Lists, Counted;
  }

  /** The sender is done with a bunch, or through, and no signal has cut it short. */
  ghost predicate BunchOver(s: State) {
    !s.signalDone && (s.sender.Finished? || Enabled(s, SendFinish))
  }

  /** A bunch goes to io_submit packet by packet, in order and each packet once: at any time a first part of it, and
      all of it when the sender is done with it without a signal. */
  lemma BunchSubmitted(ss: seq<State>, acts: seq<Action>, pkts: seq<Pkt>)
    requires Steps(ss, acts) && Inv(ss[0]) && acts != [] && acts[0] == NextBunch(pkts)
    requires forall i :: 1 <= i < |acts| ==> !acts[i].NextBunch?
    ensures Sent(ss, acts) <= pkts
    ensures BunchOver(ss[|acts|]) ==> Sent(ss, acts) == pkts
  {
    FirstUnsent(ss[0], pkts);
    StepsConserve(ss, acts);
    GivenOnce(acts[1..]);
    RunKeepsInvFrom(ss, acts);
    AllOver(ss[|acts|]);
    hide Inv, Do, Enabled, Unsent, Sent, Steps, BunchOver;
    assert [] + (pkts + []) == pkts;
  }

  lemma FirstUnsent(s: State, pkts: seq<Pkt>)
    requires Enabled(s, NextBunch(pkts))
    ensures Unsent(s) == []
  {
  }

  lemma {:induction false} GivenOnce(acts: seq<Action>)
    requires forall i :: 0 <= i < |acts| ==> !acts[i].NextBunch?
    ensures Given(acts) == []
  {
    if acts != [] {
      GivenOnce(acts[1..]);
    }
  }

  lemma {:induction false} RunKeepsInvFrom(ss: seq<State>, acts: seq<Action>)
    requires Steps(ss, acts) && Inv(ss[0])
    ensures Inv(ss[|acts|])
    decreases |acts|
  {
    hide Inv, Do, Enabled;
    if acts != [] {
      StepKeepsInv(ss[0], acts[0]);
      var rest, later := ss[1..], acts[1..];
      AfterFirst(ss, acts);
      RunKeepsInvFrom(rest, later);
    }
  }

  lemma AllOver(s: State)
    requires Inv(s)
    ensures BunchOver(s) ==> Unsent(s) == []
  {
  }

  /** Over whole runs: what goes to io_submit is what the bunches read have, in order, each packet once; nothing is
      missing when the sender is done without a signal. */
  lemma AllSubmitted(ss: seq<State>, acts: seq<Action>)
    requires Run(ss, acts)
    ensures Sent(ss, acts) <= Given(acts)
    ensures BunchOver(ss[|acts|]) ==> Sent(ss, acts) == Given(acts)
  {
    InitInv(ss[0]);
    StepsConserve(ss, acts);
    RunKeepsInv(ss, acts, |acts|);
    AllOver(ss[|acts|]);
    assert Unsent(ss[0]) + Given(acts) == Given(acts);
  }

  /** So a bunch ends: however the threads take turns, there are only so many steps, and when none of them is
      possible any more all its packets have gone to io_submit, or a signal has arrived. */
  lemma BunchEnds(ss: seq<State>, acts: seq<Action>, pkts: seq<Pkt>)
    requires Steps(ss, acts) && Inv(ss[0]) && acts != [] && acts[0] == NextBunch(pkts)
    requires forall i :: 1 <= i < |acts| ==> !acts[i].NextBunch? && !acts[i].SendFinish?
    ensures var t := ss[|acts|];
      && Inv(t) && Worked(acts) <= 15 * |pkts| + BunchToGo(ss[0]) + 3 * Spurious(acts)
      && ((exists a :: Works(a) && Enabled(t, a)) || Sent(ss, acts) == pkts || t.signalDone)
  {
    var t := ss[|acts|];
    hide Inv, BunchToGo, Do, Steps, Sent, Works;
    AfterFirst(ss, acts);
    FirstStep(ss[0], pkts);
    BunchEndsFrom(ss[1..], acts[1..]);
    BunchSubmitted(ss, acts, pkts);
    BunchNonneg(t);
    WorksNot(acts[0]);
    if !t.sender.Finished? && !t.sender.Aborted? && (t.sender.Idle? ==> t.todo != [] && !t.signalDone) {
      var a := BunchGoesOn(t);
    } else {
      AbortKnown(t);
    }
  }

  lemma WorksNot(a: Action)
    ensures a.NextBunch? ==> !Works(a)
  {
  }

  lemma FirstStep(s: State, pkts: seq<Pkt>)
    requires Inv(s) && Enabled(s, NextBunch(pkts))
    ensures var s' := Do(s, NextBunch(pkts));
      Inv(s') && !s'.sender.Finished? && BunchToGo(s') == BunchToGo(s) + 15 * |pkts|
  {
    StepKeepsInv(s, NextBunch(pkts));
  }

  lemma AbortKnown(s: State)
    requires Inv(s)
    ensures s.sender.Aborted? ==> s.signalDone
  {
  }

  lemma {:induction false} BunchEndsFrom(ss: seq<State>, acts: seq<Action>)
    requires Steps(ss, acts) && Inv(ss[0]) && !ss[0].sender.Finished?
    requires forall i :: 0 <= i < |acts| ==> !acts[i].NextBunch? && !acts[i].SendFinish?
    ensures var t := ss[|acts|];
      && Inv(t) && !t.sender.Finished?
      && Worked(acts) + BunchToGo(t) <= BunchToGo(ss[0]) + 3 * Spurious(acts)
    decreases |acts|
  {
    hide Inv, BunchToGo, Do, Enabled;
    if acts != [] {
      StepKeepsInv(ss[0], acts[0]);
      BunchComesNearer(ss[0], acts[0]);
      NotFinished(ss[0], acts[0]);
      var rest, later := ss[1..], acts[1..];
      AfterFirst(ss, acts);
      BunchEndsFrom(rest, later);
    }
  }

  lemma NotFinished(s: State, a: Action)
    requires Enabled(s, a) && !a.SendFinish? && !s.sender.Finished?
    ensures !Do(s, a).sender.Finished?
  {
    if a.ReapCheck? || a.ReapLock? || a.ReapRecheck? || a.IoGetevents? || a.Reclaim? {
      ReaperKeepsSender(s, a);
    } else if a.NfreeCurrent? || a.IocbsMap? || a.IoSubmit? || a.CountOut? {
      SenderGoesOn(s, a);
    } else {
      hide DoNfree, DoMap, DoSubmit, DoCount, DoReapCheck, DoReapLock, DoReapRecheck, DoGetevents, DoReclaim;
    }
    hide Do, Enabled;
  }

  lemma ReaperKeepsSender(s: State, a: Action)
    requires Enabled(s, a) && (a.ReapCheck? || a.ReapLock? || a.ReapRecheck? || a.IoGetevents? || a.Reclaim?)
    ensures Do(s, a).sender == s.sender || Do(s, a).sender.Woken?
  {
    hide DoNfree, DoMap, DoSubmit, DoCount, DoComplete, UnlinkAll, IsSendDone, IsReapDone, MaySignal;
  }

  lemma SenderGoesOn(s: State, a: Action)
    requires Enabled(s, a) && (a.NfreeCurrent? || a.IocbsMap? || a.IoSubmit? || a.CountOut?)
    ensures !Do(s, a).sender.Finished?
  {
    hide DoReapCheck, DoReapLock, DoReapRecheck, DoGetevents, DoReclaim, DoComplete, MaySignal;
  }

  // ---------- how the reaper ends ----------

  /** The sender is through and nothing is outstanding, but the reaper is past its test and heading for a wait. */
  ghost predicate Stranded(s: State) {
    s.sender.Finished? && s.b.naiosOut == 0 && (s.reaper.Lock? || s.reaper.Woken? || s.reaper.Blocked?)
  }

  /** send_done is set without a signal, so such a reaper never ends. */
  lemma StrandedForever(s: State, a: Action)
    requires Inv(s) && Stranded(s) && Enabled(s, a)
    ensures Stranded(Do(s, a))
  {
    hide DoNfree, DoMap, DoSubmit, DoCount, DoComplete, UnlinkAll;
  }

  lemma ReclaimStrandsNot(s: State, w: Wakes)
    requires ReaperKnows(s) && s.sender.Finished? && Enabled(s, Reclaim(w))
    ensures DoReclaim(s, w).sender.Finished? && !Stranded(DoReclaim(s, w))
  {
    hide UnlinkAll;
  }

  lemma TestStrandsNot(s: State)
    requires ReaperKnows(s) && s.sender.Finished? && s.sendDone && !Stranded(s) && s.b.naiosOut >= 0
    ensures s.reaper.Check? ==> DoReapCheck(s).sender.Finished? && !Stranded(DoReapCheck(s))
    ensures s.reaper.GotOut? ==> DoReapRecheck(s).sender.Finished? && !Stranded(DoReapRecheck(s))
  {
  }

  /** Once the sender is through, a reaper that is not stranded does not get stranded any more ... */
  lemma NeverStranded(s: State, a: Action)
    requires Inv(s) && s.sender.Finished? && !Stranded(s) && Enabled(s, a)
    ensures Do(s, a).sender.Finished? && !Stranded(Do(s, a))
  {
    OutNonneg(s);
    TestStrandsNot(s);
    if a.Reclaim? {
      ReclaimStrandsNot(s, a.wakes);
    }
    hide Inv, DoNfree, DoMap, DoSubmit, DoCount, DoReapCheck, DoReapRecheck, DoReclaim, IsSendDone, MaySignal;
  }

  /** ... has, or the kernel has, a step to take until it ends ... */
  lemma EndIsPossible(s: State) returns (a: Action)
    requires Inv(s) && s.sender.Finished? && !Stranded(s) && !s.reaper.Finished?
    ensures Serves(a) && Enabled(s, a)
  {
    match s.reaper
    case Check => a := ReapCheck;
    case Lock => a := ReapLock;
    case Woken => a := ReapLock;
    case GotOut(_) => a := ReapRecheck;
    case Get(limit) => a := NextCompletion(s);
    case Have(_, _) => a := Reclaim(Wakes(false, false));
    case Blocked => assert false;
  }

  function EndToGo(s: State): int {
    |s.k.inflight| + 6 * s.b.naiosOut + match s.reaper
      case Check => 4
      case Lock => 3
      case Woken => 3
      case GotOut(_) => 2
      case Get(_) => 1
      case _ => 0
  }

  /** What the steps of the reaper do to the measure. */
  lemma ReaperStepsOn(s: State)
    requires ReaperKnows(s) && s.sender.Finished? && !Stranded(s) && s.b.naiosOut >= 0
    ensures s.reaper.Check? ==> 0 <= EndToGo(DoReapCheck(s)) < EndToGo(s)
    ensures s.reaper.Lock? || s.reaper.Woken? ==> 0 <= EndToGo(DoReapLock(s)) < EndToGo(s)
    ensures s.reaper.GotOut? ==> 0 <= EndToGo(DoReapRecheck(s)) < EndToGo(s)
  {
  }

  lemma ReclaimStepsOn(s: State, a: Action)
    requires ReaperKnows(s) && s.sender.Finished? && s.b.naiosOut >= 0 && Enabled(s, a)
    ensures a.IoGetevents? ==> 0 <= EndToGo(DoGetevents(s, a.events)) < EndToGo(s)
    ensures a.Reclaim? ==> 0 <= EndToGo(DoReclaim(s, a.wakes)) < EndToGo(s)
  {
    hide UnlinkAll;
  }

  /** ... and each such step brings the end nearer, while no other step moves it away. */
  lemma EndComesNearer(s: State, a: Action)
    requires Inv(s) && s.sender.Finished? && !Stranded(s) && Enabled(s, a)
    ensures 0 <= EndToGo(Do(s, a)) <= EndToGo(s) - if Serves(a) then 1 else 0
  {
    OutNonneg(s);
    ReaperStepsOn(s);
    ReclaimStepsOn(s, a);
    OthersStepOn(s, a);
    hide Inv, DoReapCheck, DoReapLock, DoReapRecheck, DoGetevents, DoReclaim, DoComplete, EndToGo;
  }

  lemma OthersStepOn(s: State, a: Action)
    requires s.sender.Finished? && s.b.naiosOut >= 0 && Enabled(s, a)
    ensures a.Complete? ==> 0 <= EndToGo(DoComplete(s, a.id)) < EndToGo(s)
    ensures a.SignalArrives? ==> 0 <= EndToGo(s.(signalDone := true)) <= EndToGo(s)
    ensures a.ReapSpurious? ==> s.reaper.Blocked?
  {
    if a.Complete? {
      OneLess(s.k.inflight, a.id);
    }
  }

  lemma OutNonneg(s: State)
    requires Inv(s)
    ensures s.b.naiosOut >= 0 && ReaperKnows(s) && (s.sender.Finished? ==> s.sendDone)
  {
  }

  /** reclaim_ios comes to its end exactly when nothing is outstanding any more. */
  lemma ReclaimGoesOn(s: State, w: Wakes)
    requires Inv(s) && Enabled(s, Reclaim(w))
    ensures var s' := DoReclaim(s, w);
      if s'.b.naiosOut == 0 then s'.reaper.Check? else s'.reaper.Get? && 0 < s'.reaper.limit <= s'.b.naiosOut
  {
    hide Lists, SenderKnows, UnlinkAll;
  }

  /** How many of the steps are steps of the reaper or of the kernel. */
  function Served(acts: seq<Action>): nat {
    if acts == [] then 0 else (if Serves(acts[0]) then 1 else 0) + Served(acts[1..])
  }

  /** However it goes on, there are only so many service steps, and at any point before the reaper has ended
      there is another one. */
  lemma {:induction false} ServiceIsBounded(ss: seq<State>, acts: seq<Action>)
    requires Steps(ss, acts) && Inv(ss[0]) && ss[0].sender.Finished? && !Stranded(ss[0])
    ensures var t := ss[|acts|];
      && Inv(t) && t.sender.Finished? && !Stranded(t) && Served(acts) + EndToGo(t) <= EndToGo(ss[0])
      && (t.reaper.Finished? || exists a :: Serves(a) && Enabled(t, a))
    decreases |acts|
  {
    hide Inv, Stranded, EndToGo, Do, Enabled;
    if acts == [] {
      if !ss[0].reaper.Finished? {
        var a := EndIsPossible(ss[0]);
      }
    } else {
      StepKeepsInv(ss[0], acts[0]);
      NeverStranded(ss[0], acts[0]);
      EndComesNearer(ss[0], acts[0]);
      var rest, later := ss[1..], acts[1..];
      AfterFirst(ss, acts);
      ServiceIsBounded(rest, later);
    }
  }

  /** The reaper can get to its end from s. */
  ghost predicate CanEnd(s: State) {
    exists ss: seq<State>, acts: seq<Action> :: Steps(ss, acts) && ss[0] == s && ss[|acts|].reaper.Finished?
  }

  lemma StrandedIsNoEnd(s: State)
    requires Stranded(s)
    ensures !s.reaper.Finished?
  {
  }

  lemma {:induction false} StrandedCannotEnd(ss: seq<State>, acts: seq<Action>)
    requires Steps(ss, acts) && Inv(ss[0]) && Stranded(ss[0])
    ensures !ss[|acts|].reaper.Finished?
    decreases |acts|
  {
    hide Inv, Stranded, Do, Enabled;
    if acts == [] {
      StrandedIsNoEnd(ss[0]);
    } else {
      StepKeepsInv(ss[0], acts[0]);
      StrandedForever(ss[0], acts[0]);
      var rest, later := ss[1..], acts[1..];
      AfterFirst(ss, acts);
      StrandedCannotEnd(rest, later);
    }
  }

  lemma {:induction false} ServiceLeadsToTheEnd(s: State)
    requires Inv(s) && s.sender.Finished? && !Stranded(s)
    ensures CanEnd(s)
    decreases EndToGo(s)
  {
    hide Inv, Stranded, EndToGo;
    if s.reaper.Finished? {
      var none: seq<Action> := [];
      assert Steps([s], none);
    } else {
      var a := EndIsPossible(s);
      StepKeepsInv(s, a);
      NeverStranded(s, a);
      EndComesNearer(s, a);
      ServiceLeadsToTheEnd(Do(s, a));
      var ss: seq<State>, acts: seq<Action> :| Steps(ss, acts) && ss[0] == Do(s, a) && ss[|acts|].reaper.Finished?;
      OneBefore(s, a, ss, acts);
    }
  }

  lemma OneBefore(s: State, a: Action, ss: seq<State>, acts: seq<Action>)
    requires Enabled(s, a) && Steps(ss, acts) && ss[0] == Do(s, a) && ss[|acts|].reaper.Finished?
    ensures CanEnd(s)
  {
    hide Enabled, Do;
    var ss', acts' := [s] + ss, [a] + acts;
    forall i | 0 <= i < |acts'| ensures Enabled(ss'[i], acts'[i]) && ss'[i + 1] == Do(ss'[i], acts'[i]) {
      assert i > 0 ==> ss'[i] == ss[i - 1] && acts'[i] == acts[i - 1];
    }
    assert Steps(ss', acts') && ss'[|acts'|] == ss[|acts|];
  }

  /** After the sender is through, whatever is still outstanding, the reaper ends - within EndToGo(s) steps of
      its own and the kernel's, in whatever order they come - exactly if it is not stranded. */
  lemma ReaperEnds(s: State)
    requires Inv(s) && s.sender.Finished?
    ensures CanEnd(s) <==> !Stranded(s)
    ensures !Stranded(s) ==> forall ss: seq<State>, acts: seq<Action> ::
      Steps(ss, acts) && ss[0] == s && Served(acts) >= EndToGo(s) ==> ss[|acts|].reaper.Finished?
  {
    hide Inv, Stranded, EndToGo;
    if Stranded(s) {
      forall ss: seq<State>, acts: seq<Action> | Steps(ss, acts) && ss[0] == s
        ensures !ss[|acts|].reaper.Finished?
      {
        StrandedCannotEnd(ss, acts);
      }
    } else {
      ServiceLeadsToTheEnd(s);
      forall ss: seq<State>, acts: seq<Action> | Steps(ss, acts) && ss[0] == s && Served(acts) >= EndToGo(s)
        ensures ss[|acts|].reaper.Finished?
      {
        ServiceIsBounded(ss, acts);
        if !ss[|acts|].reaper.Finished? {
          var a := EndIsPossible(ss[|acts|]);
          StepKeepsInv(ss[|acts|], a);
          EndComesNearer(ss[|acts|], a);
        }
      }
    }
  }

  /** Which of the two it is, is settled when the sender sets send_done: nothing is outstanding then, and the
      reaper has made its first test and not yet read naios_out. */
  lemma FinishDecides(s: State)
    requires Inv(s) && Enabled(s, SendFinish)
    ensures CanEnd(Do(s, SendFinish)) <==>
      s.b.naiosOut > 0 || !(s.reaper.Lock? || s.reaper.Woken? || s.reaper.Blocked?)
  {
    StepKeepsInv(s, SendFinish);
    ReaperEnds(Do(s, SendFinish));
    hide CanEnd;
  }

  /** The initial state with one control block. */
  function OneBlock(asserts: bool): State {
    State(1, Blocks([0], [], 1, 0), Kernel(multiset{}, multiset{}),
          false, false, false, false, false, [], Idle, Check, asserts)
  }

  lemma OneBlockInit(asserts: bool)
    ensures Init(OneBlock(asserts))
  {
    assert Ids(1) == Ids(0) + multiset{0};
  }

  /** A run that strands the reaper: an empty input file is enough. */
  lemma StrandingRun(asserts: bool) returns (ss: seq<State>, acts: seq<Action>)
    ensures Run(ss, acts) && Stranded(ss[|ss| - 1]) && ss[0].asserts == asserts
  {
    OneBlockInit(asserts);
    var s0 := OneBlock(asserts);
    var s1 := DoReapCheck(s0);
    var s2 := s1.(sendDone := true, sender := Sender.Finished);
    ss, acts := [s0, s1, s2], [ReapCheck, SendFinish];
  }

  lemma FreeIff(s: State)
    requires Inv(s) && Enabled(s, NfreeCurrent)
    ensures s.signalDone ==> DoNfree(s) == s.(sender := GotFree(0))
    ensures DoNfree(s).sender.GotFree? ==> (DoNfree(s).sender.nfree == 0 <==> s.signalDone)
    ensures DoNfree(s).asserts == s.asserts
  {
    hide Lists, SenderKnows, ReaperKnows;
  }

  lemma NothingToMap(s: State)
    requires s.sender == GotFree(0) && !s.asserts
    ensures DoMap(s) == s.(sender := Idle)
  {
  }

  /** After a signal nfree_current returns 0 and the assertion 0 < ntodo of process_bunch fails; only then, and only
      when assertions are compiled in. Otherwise the sender is back at its loop test with nothing changed. */
  lemma AssertionFails(s: State)
    requires Inv(s) && Enabled(s, NfreeCurrent)
    ensures DoNfree(s).sender.GotFree? ==> (DoMap(DoNfree(s)).sender.Aborted? <==> s.signalDone && s.asserts)
    ensures s.signalDone && !s.asserts ==> DoNfree(s).sender.GotFree? && DoMap(DoNfree(s)) == s.(sender := Idle)
  {
    hide Inv, DoNfree, DoMap;
    FreeIff(s);
    var s1 := DoNfree(s);
    if s1.sender.GotFree? {
      KeepNfree(s);
      KeepMap(s1);
    }
    if s.signalDone && !s.asserts {
      NothingToMap(s1);
    }
  }

  /** A run that fails it: the signal arrives after the loop test, before nfree_current. */
  lemma AbortingRun(pkt: Pkt) returns (ss: seq<State>, acts: seq<Action>)
    ensures Run(ss, acts) && ss[|ss| - 1].sender.Aborted?
    ensures acts == [NextBunch([pkt]), LoopTest, SignalArrives, NfreeCurrent, IocbsMap]
  {
    OneBlockInit(true);
    var s0 := OneBlock(true);
    var s1 := s0.(todo := [pkt]);
    var s2 := s1.(sender := Ready);
    var s3 := s2.(signalDone := true);
    var s4 := DoNfree(s3);
    ss, acts := [s0, s1, s2, s3, s4, DoMap(s4)], [NextBunch([pkt]), LoopTest, SignalArrives, NfreeCurrent, IocbsMap];
  }
}
