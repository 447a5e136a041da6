/** btreplay's iterations: the main thread hands out one token per file and round, the replay threads take
    tokens and report back. One action is one critical section. */
module Barrier {

  import opened Sums

  /** Where a replay thread stands. */
  datatype At =
    | Begin                    // before set_replay_ready
    | Loop                     // at the loop test of replay_sub
    | Want                     // in wait_iter_start, about to look at iter_start
    | Blocked                  // in pthread_cond_wait of wait_iter_start
    | Replaying                // between wait_iter_start and set_iter_done
    | Ending                   // before set_replay_done
    | Gone

  /** iterations: as in struct thr_info; replays: the tokens taken so far. */
  datatype Thread = Thread(at: At, iterations: int, replays: nat)

  /** Where the main thread stands; i is its loop variable. */
  datatype Main =
    | WaitReady
    | ReadyBlocked
    | Starting(i: nat)         // before start_iter, or past the loop when i is the number of iterations
    | WaitIters(i: nat)
    | ItersBlocked(i: nat)
    | WaitDone
    | DoneBlocked
    | Finished
    | Aborted                  // an assertion failed, in whatever thread

  datatype State = State(
    nfiles: nat, iterations: nat, threads: seq<Thread>, main: Main,
    iterStart: int, ready: int, itersDone: int, done: int)

  /** A step of a thread, or a spurious wake-up. */
  datatype Action = ByThread(t: nat) | ByMain | Spurious(t: nat) | SpuriousMain

  // ---------- the steps ----------

  /** set_replay_ready, set_iter_done, set_replay_done: one more, and a signal to the main thread. */
  function SetReady(s: State, t: nat): State
    requires t < |s.threads|
  {
    s.(ready := s.ready + 1, threads := s.threads[t := s.threads[t].(at := Loop)],
       main := if s.ready >= s.nfiles then Aborted else if s.main.ReadyBlocked? then WaitReady else s.main)
  }

  function SetIterDone(s: State, t: nat): State
    requires t < |s.threads|
  {
    s.(itersDone := s.itersDone + 1, threads := s.threads[t := s.threads[t].(at := Loop)],
       main := if s.itersDone >= s.nfiles then Aborted
               else if s.main.ItersBlocked? then WaitIters(s.main.i) else s.main)
  }

  function SetDone(s: State, t: nat): State
    requires t < |s.threads|
  {
    s.(done := s.done + 1, threads := s.threads[t := s.threads[t].(at := Gone)],
       main := if s.done >= s.nfiles then Aborted else if s.main.DoneBlocked? then WaitDone else s.main)
  }

  /** The loop test counts the iterations down, also when it ends the loop. */
  function LoopTest(s: State, t: nat): State
    requires t < |s.threads|
  {
    var th := s.threads[t];
    var at := if th.iterations == 0 then Ending else Want;
    s.(threads := s.threads[t := th.(iterations := th.iterations - 1, at := at)])
  }

  /** wait_iter_start, one pass of its loop. */
  function TakeToken(s: State, t: nat): State
    requires t < |s.threads|
  {
    var th := s.threads[t];
    if s.iterStart == 0 then s.(threads := s.threads[t := th.(at := Blocked)])
    else if !(1 <= s.iterStart <= s.nfiles) then s.(main := Aborted)
    else s.(iterStart := s.iterStart - 1,
            threads := s.threads[t := th.(at := Replaying, replays := th.replays + 1)])
  }

  function Wake(t: Thread): Thread {
    if t.at.Blocked? then t.(at := Want) else t
  }

  function WakeAll(ts: seq<Thread>): (r: seq<Thread>)
    ensures |r| == |ts| && forall i :: 0 <= i < |ts| ==> r[i] == Wake(ts[i])
  {
    if ts == [] then [] else [Wake(ts[0])] + WakeAll(ts[1..])
  }

  /** start_iter, with its broadcast. */
  function StartIter(s: State): State
    requires s.main.Starting?
  {
    if s.main.i == s.iterations then s.(main := WaitDone)
    else if s.iterStart != 0 then s.(main := Aborted)
    else s.(iterStart := s.nfiles, threads := WakeAll(s.threads), main := WaitIters(s.main.i))
  }

  ghost predicate Enabled(s: State, a: Action) {
    match a
    case ByThread(t) => t < |s.threads| && !s.main.Aborted? && !s.threads[t].at.Blocked? && !s.threads[t].at.Gone?
    case ByMain => s.main.WaitReady? || s.main.Starting? || s.main.WaitIters? || s.main.WaitDone?
    case Spurious(t) => t < |s.threads| && s.threads[t].at.Blocked?
    case SpuriousMain => s.main.ReadyBlocked? || s.main.ItersBlocked? || s.main.DoneBlocked?
  }

  function DoThread(s: State, t: nat): State
    requires t < |s.threads|
  {
    match s.threads[t].at
    case Begin => SetReady(s, t)
    case Loop => LoopTest(s, t)
    case Want => TakeToken(s, t)
    case Replaying => SetIterDone(s, t)
    case Ending => SetDone(s, t)
    case _ => s
  }

  /** __wait_cv, one pass of its loop, three times; and the loop of main. */
  function DoMain(s: State): State {
    match s.main
    case WaitReady => if s.ready < s.nfiles then s.(main := ReadyBlocked) else s.(ready := 0, main := Starting(0))
    case Starting(_) => StartIter(s)
    case WaitIters(i) =>
      if s.itersDone < s.nfiles then s.(main := ItersBlocked(i)) else s.(itersDone := 0, main := Starting(i + 1))
    case WaitDone => if s.done < s.nfiles then s.(main := DoneBlocked) else s.(done := 0, main := Finished)
    case _ => s
  }

  ghost function Do(s: State, a: Action): State
    requires Enabled(s, a)
  {
    match a
    case ByThread(t) => DoThread(s, t)
    case ByMain => DoMain(s)
    case Spurious(t) => s.(threads := s.threads[t := Wake(s.threads[t])])
    case SpuriousMain => DoSpurious(s)
  }

  function DoSpurious(s: State): State {
    match s.main
    case ReadyBlocked => s.(main := WaitReady)
    case ItersBlocked(i) => s.(main := WaitIters(i))
    case DoneBlocked => s.(main := WaitDone)
    case _ => s
  }

  ghost predicate Init(s: State) {
    && s.nfiles == |s.threads| && s.iterStart == s.ready == s.itersDone == s.done == 0 && s.main.WaitReady?
    && forall t :: 0 <= t < |s.threads| ==> s.threads[t] == Thread(Begin, s.iterations, 0)
  }

  // ---------- what every step keeps ----------

  /** Tokens the thread still has to take. */
  function ToTake(t: Thread): nat {
    match t.at
    case Want => if t.iterations >= 0 then t.iterations + 1 else 0
    case Blocked => if t.iterations >= 0 then t.iterations + 1 else 0
    case Ending => 0
    case Gone => 0
    case _ => if t.iterations >= 0 then t.iterations else 0
  }

  function IsReplaying(t: Thread): nat { if t.at.Replaying? then 1 else 0 }

  function IsBeginning(t: Thread): nat { if t.at.Begin? then 1 else 0 }

  function IsHere(t: Thread): nat { if t.at.Gone? then 0 else 1 }

  /** Rounds the main thread has still to start. */
  function RoundsLeft(m: Main, iterations: nat): int {
    match m
    case Starting(i) => iterations - i
    case WaitIters(i) => iterations - i - 1
    case ItersBlocked(i) => iterations - i - 1
    case WaitReady => iterations
    case ReadyBlocked => iterations
    case _ => 0
  }

  predicate InRound(m: Main) { m.WaitIters? || m.ItersBlocked? }

  predicate Early(m: Main) { m.WaitReady? || m.ReadyBlocked? }

  ghost predicate ThreadOk(t: Thread, iterations: nat, iterStart: int) {
    && t.replays + ToTake(t) == iterations
    && (t.at.Ending? || t.at.Gone? ==> t.iterations == -1)
    && (!(t.at.Ending? || t.at.Gone?) ==> t.iterations >= 0)
    && (t.at.Blocked? ==> iterStart == 0)
  }

  ghost predicate ThreadsOk(ts: seq<Thread>, iterations: nat, iterStart: int) {
    forall t :: 0 <= t < |ts| ==> ThreadOk(ts[t], iterations, iterStart)
  }

  /** The tokens of a round are waiting to be taken, being used, or reported back. */
  ghost predicate Tokens(nfiles: nat, m: Main, iterStart: int, replaying: nat, itersDone: int) {
    && iterStart >= 0 && itersDone >= 0
    && iterStart + replaying + itersDone == (if InRound(m) then nfiles else 0)
    && (m.ItersBlocked? ==> itersDone < nfiles)
  }

  /** The tokens still to be taken are those of this round and of the rounds to come. */
  ghost predicate Demand(nfiles: nat, m: Main, iterations: nat, iterStart: int, toTake: nat) {
    RoundsLeft(m, iterations) >= 0 && toTake == iterStart + RoundsLeft(m, iterations) * nfiles
  }

  ghost predicate Ends(nfiles: nat, m: Main, ready: int, beginning: nat, done: int, here: nat) {
    && (if Early(m) then ready + beginning == nfiles else ready == 0 && beginning == 0)
    && (m.ReadyBlocked? ==> ready < nfiles)
    && (if m.Finished? then done == here == 0 else done + here == nfiles)
    && (m.DoneBlocked? ==> done < nfiles)
  }

  ghost predicate Inv(s: State) {
    && !s.main.Aborted? && |s.threads| == s.nfiles
    && ThreadsOk(s.threads, s.iterations, s.iterStart)
    && Tokens(s.nfiles, s.main, s.iterStart, Sum(s.threads, IsReplaying), s.itersDone)
    && Demand(s.nfiles, s.main, s.iterations, s.iterStart, Sum(s.threads, ToTake))
    && Ends(s.nfiles, s.main, s.ready, Sum(s.threads, IsBeginning), s.done, Sum(s.threads, IsHere))
  }

  lemma InitInv(s: State)
    requires Init(s)
    ensures Inv(s)
  {
    SumAll(s.threads, IsReplaying, 0);
    SumAll(s.threads, ToTake, s.iterations);
    SumAll(s.threads, IsBeginning, 1);
    SumAll(s.threads, IsHere, 1);
  }

  lemma SumsUpdate(ts: seq<Thread>, i: nat, v: Thread)
    requires i < |ts|
    ensures Sum(ts[i := v], IsReplaying) == Sum(ts, IsReplaying) - IsReplaying(ts[i]) + IsReplaying(v)
    ensures Sum(ts[i := v], ToTake) == Sum(ts, ToTake) - ToTake(ts[i]) + ToTake(v)
    ensures Sum(ts[i := v], IsBeginning) == Sum(ts, IsBeginning) - IsBeginning(ts[i]) + IsBeginning(v)
    ensures Sum(ts[i := v], IsHere) == Sum(ts, IsHere) - IsHere(ts[i]) + IsHere(v)
    ensures IsReplaying(ts[i]) <= Sum(ts, IsReplaying) && ToTake(ts[i]) <= Sum(ts, ToTake)
    ensures IsBeginning(ts[i]) <= Sum(ts, IsBeginning) && IsHere(ts[i]) <= Sum(ts, IsHere)
  {
    SumUpdate(ts, i, v, IsReplaying);
    SumUpdate(ts, i, v, ToTake);
    SumUpdate(ts, i, v, IsBeginning);
    SumUpdate(ts, i, v, IsHere);
    SumAtLeast(ts, i, IsReplaying);
    SumAtLeast(ts, i, ToTake);
    SumAtLeast(ts, i, IsBeginning);
    SumAtLeast(ts, i, IsHere);
  }

  lemma KeepThread(s: State, t: nat)
    requires Inv(s) && Enabled(s, ByThread(t))
    ensures Inv(DoThread(s, t))
  {
    hide Sum;
    var s' := DoThread(s, t);
    SumsUpdate(s.threads, t, s'.threads[t]);
    assert s'.threads == s.threads[t := s'.threads[t]];
  }

  lemma SumsWoken(ts: seq<Thread>)
    ensures Sum(WakeAll(ts), IsReplaying) == Sum(ts, IsReplaying) && Sum(WakeAll(ts), ToTake) == Sum(ts, ToTake)
    ensures Sum(WakeAll(ts), IsBeginning) == Sum(ts, IsBeginning) && Sum(WakeAll(ts), IsHere) == Sum(ts, IsHere)
  {
    SumSame(ts, WakeAll(ts), IsReplaying);
    SumSame(ts, WakeAll(ts), ToTake);
    SumSame(ts, WakeAll(ts), IsBeginning);
    SumSame(ts, WakeAll(ts), IsHere);
  }

  /** A round takes its tokens out of the demand. */
  lemma RoundStarts(nfiles: nat, i: nat, iterations: nat, toTake: nat)
    requires Demand(nfiles, Starting(i), iterations, 0, toTake) && i != iterations
    ensures Demand(nfiles, WaitIters(i), iterations, nfiles, toTake)
  {
    assert (iterations - i) * nfiles == nfiles + (iterations - i - 1) * nfiles;
  }

  lemma WokenOk(ts: seq<Thread>, iterations: nat, iterStart: int)
    requires ThreadsOk(ts, iterations, 0)
    ensures ThreadsOk(WakeAll(ts), iterations, iterStart)
  {
    forall t | 0 <= t < |ts| ensures ThreadOk(WakeAll(ts)[t], iterations, iterStart) {
      assert ThreadOk(ts[t], iterations, 0);
    }
  }

  /** The counters of the other ends do not change when a round starts. */
  lemma StartEnds(s: State)
    requires Ends(s.nfiles, s.main, s.ready, Sum(s.threads, IsBeginning), s.done, Sum(s.threads, IsHere))
    requires s.main.Starting?
    ensures var s' := StartIter(s);
      || s'.main.Aborted?
      || Ends(s'.nfiles, s'.main, s'.ready, Sum(s'.threads, IsBeginning), s'.done, Sum(s'.threads, IsHere))
  {
    hide Sum;
    SumsWoken(s.threads);
  }

  lemma KeepStart(s: State)
    requires Inv(s) && s.main.Starting?
    ensures Inv(StartIter(s))
  {
    hide Sum;
    StartEnds(s);
    SumsWoken(s.threads);
    if s.main.i != s.iterations {
      assert s.iterStart == 0;
      RoundStarts(s.nfiles, s.main.i, s.iterations, Sum(s.threads, ToTake));
      WokenOk(s.threads, s.iterations, s.nfiles);
      hide Demand;
    }
    hide ThreadsOk, Ends;
  }

  lemma KeepMain(s: State)
    requires Inv(s) && Enabled(s, ByMain)
    ensures Inv(DoMain(s))
  {
    hide Sum, ThreadsOk;
    if s.main.Starting? {
      KeepStart(s);
      hide Inv, StartIter;
    }
  }

  lemma KeepSpurious(s: State, t: nat)
    requires Inv(s) && Enabled(s, Spurious(t))
    ensures Inv(Do(s, Spurious(t)))
  {
    hide Sum;
    SumsUpdate(s.threads, t, Wake(s.threads[t]));
  }

  lemma StepKeepsInv(s: State, a: Action)
    requires Inv(s) && Enabled(s, a)
    ensures Inv(Do(s, a))
  {
    match a
    case ByThread(t) =>
      KeepThread(s, t);
      hide Inv, DoThread;
    case ByMain =>
      KeepMain(s);
      hide Inv, DoMain;
    case Spurious(t) => KeepSpurious(s, t);
    case SpuriousMain => hide Sum, ThreadsOk;
  }

  // ---------- whole runs ----------

  ghost predicate Run(ss: seq<State>, acts: seq<Action>) {
    && |ss| == |acts| + 1 && Init(ss[0])
    && forall i :: 0 <= i < |acts| ==> Enabled(ss[i], acts[i]) && ss[i + 1] == Do(ss[i], acts[i])
  }

  lemma {:induction false} RunKeepsInv(ss: seq<State>, acts: seq<Action>, n: nat)
    requires Run(ss, acts) && n < |ss|
    ensures Inv(ss[n])
  {
    if n == 0 {
      InitInv(ss[0]);
    } else {
      RunKeepsInv(ss, acts, n - 1);
      StepKeepsInv(ss[n - 1], acts[n - 1]);
    }
  }

  ghost predicate Reachable(s: State) {
    exists ss: seq<State>, acts: seq<Action> :: Run(ss, acts) && ss[|ss| - 1] == s
  }

  lemma ReachableInv(s: State)
    requires Reachable(s)
    ensures Inv(s)
  {
    var ss, acts :| Run(ss, acts) && ss[|ss| - 1] == s;
    RunKeepsInv(ss, acts, |ss| - 1);
  }

  /** No assertion ever fails, no counter passes its limit, between rounds no token is left over, and while
      tokens are left some thread has iterations left. */
  lemma Safe(s: State)
    requires Reachable(s)
    ensures !s.main.Aborted? && 0 <= s.iterStart <= s.nfiles && 0 <= s.itersDone <= s.nfiles
    ensures InRound(s.main) ==> s.iterStart + Sum(s.threads, IsReplaying) + s.itersDone == s.nfiles
    ensures s.main.Starting? ==> s.iterStart == 0 && s.itersDone == 0 && Sum(s.threads, IsReplaying) == 0
    ensures s.iterStart > 0 ==> exists t :: 0 <= t < |s.threads| && ToTake(s.threads[t]) > 0
  {
    ReachableInv(s);
    hide Reachable, Sum, ThreadsOk;
    if s.iterStart > 0 {
      DemandAtLeast(s.nfiles, s.main, s.iterations, s.iterStart, Sum(s.threads, ToTake));
      var t := SumFrom(s.threads, ToTake);
    }
    hide Demand, Ends;
  }

  lemma DemandAtLeast(nfiles: nat, m: Main, iterations: nat, iterStart: int, toTake: nat)
    requires Demand(nfiles, m, iterations, iterStart, toTake)
    ensures iterStart <= toTake
  {
    assert RoundsLeft(m, iterations) * nfiles >= 0;
  }

  predicate IsSpurious(a: Action) { a.Spurious? || a.SpuriousMain? }

  /** Until the main thread is through, some thread can go on. */
  lemma NoDeadlock(s: State) returns (a: Action)
    requires Reachable(s) && !s.main.Finished?
    ensures Enabled(s, a) && !IsSpurious(a)
  {
    ReachableInv(s);
    if s.main.ReadyBlocked? {
      var t := SumFrom(s.threads, IsBeginning);
      a := ByThread(t);
    } else if s.main.ItersBlocked? {
      var t;
      if Sum(s.threads, IsReplaying) > 0 {
        t := SumFrom(s.threads, IsReplaying);
      } else {
        assert RoundsLeft(s.main, s.iterations) * s.nfiles >= 0;
        t := SumFrom(s.threads, ToTake);
        assert ThreadOk(s.threads[t], s.iterations, s.iterStart);
      }
      a := ByThread(t);
    } else if s.main.DoneBlocked? {
      var t := SumFrom(s.threads, IsHere);
      assert ThreadOk(s.threads[t], s.iterations, s.iterStart);
      SumAtLeast(s.threads, t, ToTake);
      a := ByThread(t);
    } else {
      a := ByMain;
    }
  }

  /** How far a thread is from its end. */
  function ThreadToGo(t: Thread): nat {
    6 * ToTake(t) + match t.at
      case Begin => 6
      case Loop => 4
      case Want => 3
      case Blocked => 2
      case Replaying => 6
      case Ending => 2
      case Gone => 0
  }

  /** How far the main thread is from its end. */
  function MainToGo(m: Main, nfiles: nat, iterations: nat): int {
    RoundsLeft(m, iterations) * (nfiles + 3) + match m
      case WaitReady => 6
      case ReadyBlocked => 5
      case Starting(_) => 4
      case WaitIters(_) => 6
      case ItersBlocked(_) => 5
      case WaitDone => 3
      case DoneBlocked => 2
      case _ => 0
  }

  function ToGo(s: State): int {
    Sum(s.threads, ThreadToGo) + MainToGo(s.main, s.nfiles, s.iterations)
  }

  lemma ThreadStepsOn(s: State, t: nat)
    requires Inv(s) && Enabled(s, ByThread(t)) && Inv(DoThread(s, t))
    ensures ToGo(DoThread(s, t)) < ToGo(s)
  {
    hide Sum, Tokens, Demand, Ends;
    var s' := DoThread(s, t);
    SumUpdate(s.threads, t, s'.threads[t], ThreadToGo);
    assert s'.threads == s.threads[t := s'.threads[t]];
    assert ThreadOk(s.threads[t], s.iterations, s.iterStart);
  }

  lemma RoundCosts(nfiles: nat, i: nat, iterations: nat)
    ensures (iterations - i) * (nfiles + 3) == nfiles + 3 + (iterations - i - 1) * (nfiles + 3)
  {
  }

  lemma MainStepsOn(s: State)
    requires Inv(s) && Enabled(s, ByMain) && Inv(DoMain(s))
    ensures ToGo(DoMain(s)) < ToGo(s)
  {
    hide Sum, ThreadsOk, Demand, Ends;
    SumGrows(s.threads, WakeAll(s.threads), ThreadToGo, 1);
    if s.main.Starting? {
      RoundCosts(s.nfiles, s.main.i, s.iterations);
    } else if s.main.WaitIters? {
      assert RoundsLeft(Starting(s.main.i + 1), s.iterations) == RoundsLeft(s.main, s.iterations);
    }
  }

  /** Every step but a spurious wake-up, which costs one, brings the end nearer. */
  lemma Progress(s: State, a: Action)
    requires Inv(s) && Enabled(s, a)
    ensures ToGo(Do(s, a)) <= ToGo(s) + if IsSpurious(a) then 1 else -1
  {
    StepKeepsInv(s, a);
    match a
    case ByThread(t) =>
      ThreadStepsOn(s, t);
      hide Inv, DoThread, ToGo;
    case ByMain =>
      MainStepsOn(s);
      hide Inv, DoMain, ToGo;
    case Spurious(t) =>
      hide Sum, Tokens, Demand, Ends;
      SumUpdate(s.threads, t, Wake(s.threads[t]), ThreadToGo);
    case SpuriousMain => hide Sum, ThreadsOk, Tokens, Demand, Ends;
  }

  lemma ToGoNonneg(s: State)
    requires Inv(s)
    ensures 0 <= ToGo(s)
  {
    assert RoundsLeft(s.main, s.iterations) * (s.nfiles + 3) >= 0;
  }

  function SpuriousOnes(acts: seq<Action>): nat {
    if acts == [] then 0 else SpuriousOnes(acts[..|acts| - 1]) + if IsSpurious(acts[|acts| - 1]) then 1 else 0
  }

  /** So a run has, but for spurious wake-ups, a bounded number of steps, and by NoDeadlock it can only stop
      when the main thread is through. */
  lemma {:induction false} RunEnds(ss: seq<State>, acts: seq<Action>)
    requires Run(ss, acts)
    ensures 0 <= ToGo(ss[|acts|]) && |acts| + ToGo(ss[|acts|]) <= ToGo(ss[0]) + 2 * SpuriousOnes(acts)
    decreases |acts|
  {
    hide Inv, ToGo, Do, Enabled, Init;
    var n := |acts|;
    RunKeepsInv(ss, acts, n);
    ToGoNonneg(ss[n]);
    if n > 0 {
      RunKeepsInv(ss, acts, n - 1);
      Progress(ss[n - 1], acts[n - 1]);
      RunEnds(ss[..n], acts[..n - 1]);
    }
  }

  /** In the end every file has been replayed as often as asked for. */
  lemma EachFileReplayed(s: State, t: nat)
    requires Reachable(s) && s.main.Finished? && t < |s.threads|
    ensures s.threads[t].replays == s.iterations && s.threads[t].at.Gone?
  {
    ReachableInv(s);
    SumAtLeast(s.threads, t, ToTake);
    SumAtLeast(s.threads, t, IsHere);
    assert ThreadOk(s.threads[t], s.iterations, s.iterStart);
  }

  // ---------- rounds are not fair ----------

  /** After i rounds every file has been replayed i times. */
  ghost predicate Fair(s: State) {
    s.main.Starting? ==> forall t :: 0 <= t < |s.threads| ==> s.threads[t].replays == s.main.i
  }

  ghost predicate AlwaysFair(nfiles: nat, iterations: nat) {
    forall s :: Reachable(s) && s.nfiles == nfiles && s.iterations == iterations ==> Fair(s)
  }

  lemma FairCases(s: State)
    requires Reachable(s) && (s.nfiles <= 1 || s.iterations <= 1)
    ensures Fair(s)
  {
    ReachableInv(s);
    hide Reachable, Inv;
    if s.main.Starting? {
      forall t | 0 <= t < |s.threads| ensures s.threads[t].replays == s.main.i {
        if s.nfiles <= 1 {
          FairAlone(s, t);
        } else {
          FairOnce(s, t);
        }
      }
    }
  }

  /** What Demand says with no token out, the product spelled out. */
  lemma Left(s: State)
    requires Inv(s) && s.main.Starting?
    ensures 0 <= s.main.i <= s.iterations && s.iterStart == 0 && |s.threads| == s.nfiles
    ensures s.nfiles == 1 ==> Sum(s.threads, ToTake) == s.iterations - s.main.i
    ensures s.main.i == s.iterations ==> Sum(s.threads, ToTake) == 0
    ensures s.main.i == 0 ==> Sum(s.threads, ToTake) == s.iterations * |s.threads|
    ensures ThreadsOk(s.threads, s.iterations, s.iterStart)
  {
    hide Sum;
    var n := s.iterations - s.main.i;
    assert RoundsLeft(s.main, s.iterations) == n;
    assert s.nfiles == 1 ==> n * s.nfiles == n;
    assert n == 0 ==> n * s.nfiles == 0;
  }

  lemma FairAlone(s: State, t: nat)
    requires Inv(s) && s.nfiles <= 1 && s.main.Starting? && t < |s.threads|
    ensures s.threads[t].replays == s.main.i
  {
    Left(s);
    hide Inv;
    assert ThreadOk(s.threads[0], s.iterations, s.iterStart);
    assert t == 0 && |s.threads[1..]| == 0;
    assert Sum(s.threads, ToTake) == ToTake(s.threads[0]);
  }

  lemma FairOnce(s: State, t: nat)
    requires Inv(s) && s.iterations <= 1 && s.main.Starting? && t < |s.threads|
    ensures s.threads[t].replays == s.main.i
  {
    Left(s);
    hide Inv, Sum;
    assert ThreadOk(s.threads[t], s.iterations, s.iterStart);
    if s.main.i == s.iterations {
      SumAtLeast(s.threads, t, ToTake);
    } else {
      NothingTaken(s.threads, s.iterations, s.iterStart);
    }
  }

  /** When all tokens of all rounds are still to be taken, no thread has taken any. */
  lemma {:induction false} NothingTaken(ts: seq<Thread>, iterations: nat, iterStart: int)
    requires ThreadsOk(ts, iterations, iterStart)
    ensures Sum(ts, ToTake) <= iterations * |ts|
    ensures Sum(ts, ToTake) == iterations * |ts| ==> forall t :: 0 <= t < |ts| ==> ts[t].replays == 0
  {
    if ts != [] {
      NothingTaken(ts[1..], iterations, iterStart);
      assert ThreadOk(ts[0], iterations, iterStart);
      assert iterations * |ts| == iterations * (|ts| - 1) + iterations;
      assert forall t :: 1 <= t < |ts| ==> ts[t] == ts[1..][t - 1];
    }
  }

  lemma StepReachable(s: State, a: Action)
    requires Reachable(s) && Enabled(s, a)
    ensures Reachable(Do(s, a))
  {
    var ss, acts :| Run(ss, acts) && ss[|ss| - 1] == s;
    var ss', acts' := ss + [Do(s, a)], acts + [a];
    forall i | 0 <= i < |acts'| ensures Enabled(ss'[i], acts'[i]) && ss'[i + 1] == Do(ss'[i], acts'[i]) {
      assert i < |acts| ==> acts'[i] == acts[i];
    }
    assert Run(ss', acts');
  }

  /** Thread t takes a token, replays and reports. */
  lemma OneReplay(s: State, t: nat) returns (s': State)
    requires Reachable(s) && s.main.WaitIters?
    requires t < |s.threads| && s.threads[t].at.Loop? && s.threads[t].iterations > 0
    requires 1 <= s.iterStart <= s.nfiles && s.itersDone < s.nfiles
    ensures Reachable(s')
    ensures s' == s.(iterStart := s.iterStart - 1, itersDone := s.itersDone + 1,
      threads := s.threads[t := Thread(Loop, s.threads[t].iterations - 1, s.threads[t].replays + 1)])
  {
    StepReachable(s, ByThread(t));
    var s1 := LoopTest(s, t);
    StepReachable(s1, ByThread(t));
    var s2 := TakeToken(s1, t);
    StepReachable(s2, ByThread(t));
    s' := SetIterDone(s2, t);
    var th := Thread(Loop, s.threads[t].iterations - 1, s.threads[t].replays + 1);
    assert s'.threads == s.threads[t := th];
  }

  /** All threads report ready, and the first round starts. */
  lemma FirstRound(n: nat, iterations: nat) returns (s: State)
    requires n > 0 && iterations > 0
    ensures Reachable(s)
    ensures s == State(n, iterations, seq(n, _ => Thread(Loop, iterations, 0)), WaitIters(0), n, 0, 0, 0)
  {
    s := State(n, iterations, seq(n, _ => Thread(Begin, iterations, 0)), WaitReady, 0, 0, 0, 0);
    var none: seq<Action> := [];
    assert Run([s], none);
    assert [s][|[s]| - 1] == s;
    var k := 0;
    while k < n
      invariant k <= n && Reachable(s)
      invariant s == State(n, iterations, s.threads, WaitReady, 0, k, 0, 0) && |s.threads| == n
      invariant forall t :: 0 <= t < n ==> s.threads[t] == Thread(if t < k then Loop else Begin, iterations, 0)
    {
      StepReachable(s, ByThread(k));
      s := SetReady(s, k);
      k := k + 1;
    }
    StepReachable(s, ByMain);
    s := DoMain(s);
    StepReachable(s, ByMain);
    s := DoMain(s);
    assert s.threads == seq(n, _ => Thread(Loop, iterations, 0));
  }

  /** The first thread is quick and takes the token that the second one has not taken yet. */
  lemma UnfairRound(n: nat, iterations: nat) returns (s: State)
    requires n >= 2 && iterations >= 2
    ensures Reachable(s) && s.nfiles == n && s.iterations == iterations && s.main == Starting(1) && !Fair(s)
  {
    s := FirstRound(n, iterations);
    s := OneReplay(s, 0);
    s := OneReplay(s, 0);
    var k := 2;
    while k < n
      invariant 2 <= k <= n && Reachable(s) && |s.threads| == n
      invariant s == State(n, iterations, s.threads, WaitIters(0), n - k, 0, k, 0)
      invariant s.threads[1] == Thread(Loop, iterations, 0)
      invariant forall t :: k <= t < n ==> s.threads[t] == Thread(Loop, iterations, 0)
    {
      s := OneReplay(s, k);
      k := k + 1;
    }
    StepReachable(s, ByMain);
    s := DoMain(s);
    assert s.threads[1].replays != s.main.i;
  }

  /** A round replays every file once exactly if there is only one file or only one round. */
  lemma FairIff(nfiles: nat, iterations: nat)
    ensures AlwaysFair(nfiles, iterations) <==> nfiles <= 1 || iterations <= 1
  {
    if nfiles <= 1 || iterations <= 1 {
      forall s | Reachable(s) && s.nfiles == nfiles && s.iterations == iterations ensures Fair(s) {
        FairCases(s);
      }
    } else {
      var s := UnfairRound(nfiles, iterations);
      assert !Fair(s);
    }
  }
}
