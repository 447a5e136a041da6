/** btrecord's output stream: the bunch being collected is filled in place and written when it is done. */
module Btrecord {

  import opened Words
  import opened Bunches

  /** struct io_bunch */
  class IoBunch {
    var npkts: nat
    var timeStamp: U64
    const pkts: array<Pkt>

    constructor (timeStamp: U64)
      ensures npkts == 0 && this.timeStamp == timeStamp && pkts.Length == BT_MAX_PKTS && fresh(pkts)
    {
      npkts, this.timeStamp := 0, timeStamp;
      pkts := new Pkt[BT_MAX_PKTS](_ => Pkt(0, 0, 0));
    }

    ghost function Written(): Bunch
      requires npkts <= pkts.Length
      reads this, pkts
    {
      Bunch(timeStamp, pkts[..npkts])
    }
  }

  lemma AddProgress(l: Limits, p: Progress, x: Spec)
    ensures var q := Add(l, p, x);
      q.last != [] && q.last[|q.last| - 1] == x
  {
  }

  /** What has been written of the groups, and the two counters. */
  ghost predicate Saved(gs: seq<seq<Spec>>, written: seq<Bunch>, bunches: nat, pkts: nat) {
    && (forall i :: 0 <= i < |gs| ==> gs[i] != [])
    && written == Records(gs) && bunches == |gs| && pkts == |Concat(gs)|
  }

  lemma SavedMore(gs: seq<seq<Spec>>, g: seq<Spec>, written: seq<Bunch>, bunches: nat, pkts: nat)
    requires Saved(gs, written, bunches, pkts) && g != []
    ensures Saved(gs + [g], written + [Record(g)], bunches + 1, pkts + |g|)
  {
    ConcatMore(gs, g);
  }

  lemma {:induction false} ConcatMore(gs: seq<seq<Spec>>, g: seq<Spec>)
    ensures Concat(gs + [g]) == Concat(gs) + g
  {
    if gs == [] {
      assert gs + [g] == [g];
    } else {
      assert (gs + [g])[1..] == gs[1..] + [g];
      ConcatMore(gs[1..], g);
    }
  }

  ghost function Records(gs: seq<seq<Spec>>): (r: seq<Bunch>)
    requires forall i :: 0 <= i < |gs| ==> gs[i] != []
    ensures |r| == |gs| && forall i :: 0 <= i < |gs| ==> r[i] == Record(gs[i])
  {
    seq(|gs|, i requires 0 <= i < |gs| => Record(gs[i]))
  }

  /** struct io_stream; written is what its file holds after the header. */
  class IoStream {
    const limits: Limits
    var cur: IoBunch?
    var startTime: U64
    var lastTime: U64
    var bunches: nat
    var pkts: nat
    var written: seq<Bunch>

    constructor (limits: Limits)
      requires LimitsOk(limits)
      ensures this.limits == limits && Holds(Progress([], [])) && cur == null
    {
      this.limits := limits;
      cur, startTime, lastTime, bunches, pkts, written := null, 0, 0, 0, 0, [];
    }

    /** The groups that are done are written, and the last one is being collected. */
    ghost predicate Holds(p: Progress)
      reads this, cur, if cur == null then {} else {cur.pkts}
    {
      && LimitsOk(limits) && Saved(p.done, written, bunches, pkts)
      && (cur == null <==> p.last == [])
      && (cur == null ==> p.done == [] && lastTime == 0)
      && (cur != null ==>
        && cur.pkts.Length == BT_MAX_PKTS && cur.npkts == |p.last| <= limits.pkts && cur.Written() == Record(p.last)
        && startTime == p.last[0].time && lastTime == p.last[|p.last| - 1].time)
    }

    method IoBunchCreate(time: U64)
      modifies this`cur, this`startTime
      ensures cur != null && fresh(cur) && fresh(cur.pkts) && cur.npkts == 0 && cur.timeStamp == time
      ensures cur.pkts.Length == BT_MAX_PKTS && startTime == time
    {
      cur := new IoBunch(time);
      startTime := time;
    }

    /** asserts is whether assertions are compiled in, ok whether none of them fails; without them the caller has
        to see to it that there is a free slot. */
    method IoBunchAdd(spec: Spec, asserts: bool) returns (ok: bool)
      requires cur != null && cur.pkts.Length == BT_MAX_PKTS && (asserts || cur.npkts < BT_MAX_PKTS)
      modifies this`lastTime, cur, cur.pkts
      ensures ok <==> !asserts || (old(cur.npkts) < BT_MAX_PKTS && (old(lastTime) == 0 || old(lastTime) <= spec.time))
      ensures ok ==> cur.npkts == old(cur.npkts) + 1 && lastTime == spec.time && cur.timeStamp == old(cur.timeStamp)
      ensures ok ==> cur.pkts[..cur.npkts] == old(cur.pkts[..cur.npkts]) + [spec.pkt]
    {
      ok := !asserts || (cur.npkts < BT_MAX_PKTS && (lastTime == 0 || lastTime <= spec.time));
      if ok {
        cur.pkts[cur.npkts] := spec.pkt;
        cur.npkts := cur.npkts + 1;
        lastTime := spec.time;
      }
    }

    method StreamFlush()
      requires cur != null ==> cur.npkts <= cur.pkts.Length
      modifies this`written, this`bunches, this`pkts
      ensures if cur != null && cur.npkts > 0
        then written == old(written) + [cur.Written()] && bunches == old(bunches) + 1 && pkts == old(pkts) + cur.npkts
        else written == old(written) && bunches == old(bunches) && pkts == old(pkts)
    {
      if cur != null && cur.npkts > 0 {
        written := written + [Bunch(cur.timeStamp, cur.pkts[..cur.npkts])];
        bunches := bunches + 1;
        pkts := pkts + cur.npkts;
      }
    }

    /** Make room for the event: a new bunch when there is none or it is done. */
    method Prepare(spec: Spec, ghost p: Progress)
      requires Holds(p)
      modifies this
      ensures lastTime == old(lastTime) && cur != null && cur.pkts.Length == BT_MAX_PKTS && cur.npkts < limits.pkts
      ensures var q := Add(limits, p, spec);
        && Saved(q.done, written, bunches, pkts) && |q.last| == cur.npkts + 1
        && startTime == q.last[0].time == cur.timeStamp
        && cur.pkts[..cur.npkts] == Pkts(q.last[..cur.npkts]) && q.last[cur.npkts] == spec
      ensures cur == old(cur) || (fresh(cur) && fresh(cur.pkts))
    {
      if cur == null {
        IoBunchCreate(spec.time);
      } else if BunchDone(limits, cur.npkts, startTime, spec) {
        SavedMore(p.done, p.last, written, bunches, pkts);
        StreamFlush();
        IoBunchCreate(spec.time);
      }
    }

    /** ok is whether no assertion failed: there are none, or the event is not before the last one. */
    method StreamAddIo(spec: Spec, asserts: bool, ghost p: Progress) returns (ok: bool)
      requires Holds(p)
      modifies this, cur, if cur == null then {} else {cur.pkts}
      ensures ok <==> !asserts || old(lastTime) <= spec.time
      ensures ok ==> Holds(Add(limits, p, spec))
      ensures ok ==> cur == old(cur) || (fresh(cur) && fresh(cur.pkts))
    {
      hide Saved, Add;
      AddProgress(limits, p, spec);
      Prepare(spec, p);
      ok := IoBunchAdd(spec, asserts);
      ghost var q := Add(limits, p, spec);
      assert q.last == q.last[..|q.last| - 1] + [spec];
    }
  }

  lemma SortedMore(s: seq<Spec>, x: Spec)
    requires Sorted(s)
    ensures Sorted(s + [x]) <==> s == [] || s[|s| - 1].time <= x.time
  {
    var t := s + [x];
    if s != [] && t[|s| - 1].time <= x.time {
      forall i, j | 0 <= i < j < |t| ensures t[i].time <= t[j].time {
        assert i < |s| - 1 ==> s[i].time <= s[|s| - 1].time;
      }
    } else if s != [] {
      assert t[|s| - 1].time > t[|s|].time;
    }
  }

  lemma SortedFront(s: seq<Spec>, n: nat)
    requires n <= |s|
    ensures Sorted(s) ==> Sorted(s[..n])
  {
  }

  lemma NothingAdded(l: Limits)
    ensures AddAll(l, []) == Progress([], [])
  {
  }

  /** The last flush completes the groups. */
  lemma Finished(l: Limits, s: seq<Spec>, written: seq<Bunch>, bunches: nat, pkts: nat)
    requires LimitsOk(l) && Saved(AddAll(l, s).done, written, bunches, pkts)
    ensures forall i :: 0 <= i < |Greedy(l, s)| ==> Greedy(l, s)[i] != []
    ensures var last, all := AddAll(l, s).last, Records(Greedy(l, s));
      if s == [] then all == [] && written == [] && bunches == pkts == 0
      else last != [] && all == written + [Record(last)] && bunches == |all| - 1 && pkts == |s| - |last|
  {
    GreedyAddAll(l, s);
    GreedyPartitions(l, s);
    var p := AddAll(l, s);
    if s != [] {
      SavedMore(p.done, p.last, written, bunches, pkts);
    }
  }

  /** The header that is written over the first one when the file is closed. */
  datatype FileHdr = FileHdr(nbunches: nat, totalPkts: nat)

  /** Aborted when an assertion failed, or at a time inversion. */
  datatype Result = Aborted | Done(hdr: FileHdr, bunches: seq<Bunch>)

  ghost function AllPkts(bs: seq<Bunch>): seq<Pkt> {
    if bs == [] then [] else bs[0].pkts + AllPkts(bs[1..])
  }

  /** The packets of the recorded bunches, put together again, are those of the events. */
  lemma {:induction false} NoPktLost(gs: seq<seq<Spec>>)
    requires forall i :: 0 <= i < |gs| ==> gs[i] != []
    ensures AllPkts(Records(gs)) == Pkts(Concat(gs))
  {
    if gs != [] {
      NoPktLost(gs[1..]);
      assert Records(gs)[1..] == Records(gs[1..]);
      assert Pkts(gs[0] + Concat(gs[1..])) == Pkts(gs[0]) + Pkts(Concat(gs[1..]));
    }
  }

  /** The bunches have the packets of the events in their order, and each the time of the first of its own events. */
  ghost predicate Describes(bunches: seq<Bunch>, s: seq<Spec>) {
    && |AllPkts(bunches)| == |s| && (forall i :: 0 <= i < |s| ==> AllPkts(bunches)[i] == s[i].pkt)
    && forall i :: 0 <= i < |bunches| ==>
         var k := |AllPkts(bunches[..i])|; k < |s| && bunches[i].pkts != [] && bunches[i].timeStamp == s[k].time
  }

  lemma {:induction false} FirstOfGroup(gs: seq<seq<Spec>>, i: nat)
    requires i < |gs| && forall j :: 0 <= j < |gs| ==> gs[j] != []
    ensures var k := |AllPkts(Records(gs)[..i])|; k < |Concat(gs)| && Concat(gs)[k] == gs[i][0]
  {
    var r := Records(gs);
    if i > 0 {
      FirstOfGroup(gs[1..], i - 1);
      assert Records(gs[1..]) == r[1..];
      assert r[..i][1..] == r[1..][..i - 1];
    }
  }

  lemma GroupsDescribe(gs: seq<seq<Spec>>)
    requires forall j :: 0 <= j < |gs| ==> gs[j] != []
    ensures Describes(Records(gs), Concat(gs))
  {
    NoPktLost(gs);
    forall i | 0 <= i < |gs|
      ensures var k := |AllPkts(Records(gs)[..i])|; k < |Concat(gs)| && Records(gs)[i].timeStamp == Concat(gs)[k].time
    {
      FirstOfGroup(gs, i);
    }
  }

  lemma GreedyDescribes(l: Limits, s: seq<Spec>)
    requires LimitsOk(l)
    ensures forall i :: 0 <= i < |Greedy(l, s)| ==> Greedy(l, s)[i] != []
    ensures Describes(Records(Greedy(l, s)), s)
  {
    GreedyPartitions(l, s);
    GroupsDescribe(Greedy(l, s));
  }

  /** The genesis of struct ifile_info after these events: the first time that is not 0. */
  function Genesis(s: seq<Spec>): U64 {
    if s == [] then 0 else if s[0].time != 0 then s[0].time else Genesis(s[1..])
  }

  /** No event is before the genesis of those before it: next_io goes on to the end. */
  ghost predicate NoInversion(s: seq<Spec>) {
    forall i :: 0 <= i < |s| ==> Genesis(s[..i]) <= s[i].time
  }

  lemma {:induction false} GenesisMore(s: seq<Spec>, x: Spec)
    ensures Genesis(s + [x]) == if Genesis(s) == 0 then x.time else Genesis(s)
  {
    if s != [] {
      assert (s + [x])[1..] == s[1..] + [x];
      GenesisMore(s[1..], x);
    }
  }

  lemma {:induction false} GenesisIn(s: seq<Spec>)
    ensures Genesis(s) != 0 ==> exists i :: 0 <= i < |s| && s[i].time == Genesis(s)
  {
    if s != [] && s[0].time == 0 {
      GenesisIn(s[1..]);
      if Genesis(s) != 0 {
        var i :| 0 <= i < |s[1..]| && s[1..][i].time == Genesis(s);
        assert s[i + 1].time == Genesis(s);
      }
    }
  }

  /** A trace in order of time has no inversion. */
  lemma SortedGoesOn(s: seq<Spec>)
    requires Sorted(s)
    ensures NoInversion(s)
  {
    forall i | 0 <= i < |s| ensures Genesis(s[..i]) <= s[i].time {
      GenesisIn(s[..i]);
    }
  }

  lemma NoInversionMore(s: seq<Spec>, x: Spec)
    requires NoInversion(s)
    ensures NoInversion(s + [x]) <==> Genesis(s) <= x.time
  {
    var t := s + [x];
    assert forall i :: 0 <= i <= |s| ==> t[..i] == s[..i];
    assert s[..|s|] == s;
    assert t[|s|] == x;
    forall i | 0 <= i < |s| ensures Genesis(t[..i]) <= t[i].time {
      assert t[i] == s[i];
    }
  }

  lemma NoInversionFront(s: seq<Spec>, n: nat)
    requires n <= |s|
    ensures NoInversion(s) ==> NoInversion(s[..n])
  {
    forall i | 0 <= i < n ensures s[..n][..i] == s[..i] {
    }
  }

  lemma NothingRecorded(asserts: bool)
    ensures Recordable([], asserts) && Genesis([]) == 0
  {
  }

  /** Which traces are recorded. */
  ghost predicate Recordable(s: seq<Spec>, asserts: bool) {
    NoInversion(s) && (asserts ==> Sorted(s))
  }

  lemma RecordableMore(s: seq<Spec>, x: Spec, asserts: bool)
    requires Recordable(s, asserts)
    ensures Recordable(s + [x], asserts) <==>
      Genesis(s) <= x.time && (asserts && s != [] ==> s[|s| - 1].time <= x.time)
  {
    NoInversionMore(s, x);
    if asserts {
      SortedMore(s, x);
    }
  }

  lemma RecordableFront(s: seq<Spec>, n: nat, asserts: bool)
    requires n <= |s|
    ensures Recordable(s, asserts) ==> Recordable(s[..n], asserts)
  {
    NoInversionFront(s, n);
    SortedFront(s, n);
  }

  /** With assertions compiled in, the traces recorded are those in order of time; without them, those that never
      go back behind their first time. */
  lemma RecordableIff(s: seq<Spec>)
    ensures Recordable(s, true) <==> Sorted(s)
    ensures Recordable(s, false) <==> NoInversion(s)
  {
    if Sorted(s) {
      SortedGoesOn(s);
    }
  }

  /** A trace out of order that is recorded when assertions are compiled out. */
  lemma DisorderRecorded() returns (s: seq<Spec>)
    ensures !Sorted(s) && NoInversion(s)
  {
    var p := Pkt(0, 512, 1);
    s := [Spec(1, p), Spec(3, p), Spec(2, p)];
    assert Genesis(s[..1]) == Genesis([s[0]]) == 1;
    assert Genesis(s[..2]) == Genesis([s[0], s[1]]) == 1;
    assert s[1].time > s[2].time;
  }

  /** What one more event does to everything that is said of the events so far. */
  lemma OneMore(l: Limits, s: seq<Spec>, n: nat, asserts: bool)
    requires n < |s| && Recordable(s[..n], asserts)
    ensures AddAll(l, s[..n + 1]) == Add(l, AddAll(l, s[..n]), s[n])
    ensures Genesis(s[..n + 1]) == if Genesis(s[..n]) == 0 then s[n].time else Genesis(s[..n])
    ensures var on := Genesis(s[..n]) <= s[n].time && (asserts && n > 0 ==> s[n - 1].time <= s[n].time);
      (Recordable(s[..n + 1], asserts) <==> on) && (Recordable(s, asserts) ==> on)
  {
    hide Recordable;
    assert s[..n + 1] == s[..n] + [s[n]];
    AddAllMore(l, s[..n], s[n]);
    RecordableMore(s[..n], s[n], asserts);
    RecordableFront(s, n + 1, asserts);
    GenesisMore(s[..n], s[n]);
  }

  /** process, from the queue events of a file to its bunches; the header is made before the last flush, so
      it does not count the last bunch. */
  method Process(limits: Limits, specs: seq<Spec>, asserts: bool) returns (r: Result)
    requires LimitsOk(limits)
    ensures r.Done? <==> if asserts then Sorted(specs) else NoInversion(specs)
    ensures forall i :: 0 <= i < |Greedy(limits, specs)| ==> Greedy(limits, specs)[i] != []
    ensures r.Done? ==> r.bunches == Records(Greedy(limits, specs)) && Describes(r.bunches, specs)
    ensures r.Done? ==> r.hdr.nbunches == if specs == [] then 0 else |r.bunches| - 1
    ensures r.Done? ==> r.hdr.totalPkts == if specs == [] then 0 else |specs| - |r.bunches[|r.bunches| - 1].pkts|
  {
    hide Saved, AddAll, Sorted, NoInversion, Recordable, Add, Greedy, Genesis, Describes, Record;
    GreedyDescribes(limits, specs);
    RecordableIff(specs);
    assert specs[..0] == [];
    NothingRecorded(asserts);
    NothingAdded(limits);
    var stream := new IoStream(limits);
    var n := 0;
    var genesis: U64 := 0;
    while n < |specs|
      invariant n <= |specs| && Recordable(specs[..n], asserts) && genesis == Genesis(specs[..n])
      invariant stream.lastTime == if n > 0 then specs[n - 1].time else 0
      invariant fresh(stream) && (stream.cur != null ==> fresh(stream.cur) && fresh(stream.cur.pkts))
      invariant stream.limits == limits && stream.Holds(AddAll(limits, specs[..n]))
    {
      var x := specs[n];
      OneMore(limits, specs, n, asserts);
      if genesis == 0 {
        genesis := x.time;
      } else if genesis > x.time {
        return Aborted;
      }
      var ok := stream.StreamAddIo(x, asserts, AddAll(limits, specs[..n]));
      if !ok {
        return Aborted;
      }
      n := n + 1;
    }
    var hdr := FileHdr(stream.bunches, stream.pkts);
    assert specs[..n] == specs;
    Finished(limits, specs, stream.written, stream.bunches, stream.pkts);
    stream.StreamFlush();
    r := Done(hdr, stream.written);
  }
}
