/** How btrecord groups the queue events of one file into bunches, on values. */
module Bunches {

  import opened Words

  datatype Pkt = Pkt(sector: U64, nbytes: nat, rw: nat)

  /** struct io_spec, with the packet made from it. */
  datatype Spec = Spec(time: U64, pkt: Pkt)

  /** A bunch as it is written: the header has the number of packets and the time stamp. */
  datatype Bunch = Bunch(timeStamp: U64, pkts: seq<Pkt>)

  /** At most pkts packets, none more than time after the first one. */
  datatype Limits = Limits(pkts: nat, time: U64)

  const BT_MAX_PKTS := 512

  predicate LimitsOk(l: Limits) {
    1 <= l.pkts <= BT_MAX_PKTS && l.time >= 1
  }

  ghost predicate Sorted(s: seq<Spec>) {
    forall i, j :: 0 <= i < j < |s| ==> s[i].time <= s[j].time
  }

  /** A group the limits allow. */
  ghost predicate Fits(l: Limits, g: seq<Spec>) {
    0 < |g| <= l.pkts && forall i :: 0 <= i < |g| ==> Minus(g[i].time, g[0].time) <= l.time
  }

  ghost function Concat(gs: seq<seq<Spec>>): seq<Spec> {
    if gs == [] then [] else gs[0] + Concat(gs[1..])
  }

  /** The groups cut s in order, and each is within the limits. */
  ghost predicate Partition(l: Limits, gs: seq<seq<Spec>>, s: seq<Spec>) {
    Concat(gs) == s && forall i :: 0 <= i < |gs| ==> Fits(l, gs[i])
  }

  /** How long the bunch starting with s[0] gets once it has n packets. */
  function Extend(l: Limits, s: seq<Spec>, n: nat): (k: nat)
    requires 0 < n <= |s|
    ensures n <= k <= |s|
    decreases |s| - n
  {
    if n < |s| && n < l.pkts && Minus(s[n].time, s[0].time) <= l.time then Extend(l, s, n + 1) else n
  }

  function Greedy(l: Limits, s: seq<Spec>): seq<seq<Spec>>
    decreases |s|
  {
    if s == [] then []
    else
      var n := Extend(l, s, 1);
      [s[..n]] + Greedy(l, s[n..])
  }

  /** What a whole bunch of groups looks like in the output. */
  function Record(g: seq<Spec>): Bunch
    requires g != []
  {
    Bunch(g[0].time, Pkts(g))
  }

  function Pkts(g: seq<Spec>): (r: seq<Pkt>)
    ensures |r| == |g| && forall i :: 0 <= i < |g| ==> r[i] == g[i].pkt
  {
    seq(|g|, i requires 0 <= i < |g| => g[i].pkt)
  }

  // ---------- greedy grouping ----------

  lemma {:induction false} ExtendFits(l: Limits, s: seq<Spec>, n: nat)
    requires LimitsOk(l) && 0 < n <= |s| && Fits(l, s[..n])
    ensures Fits(l, s[..Extend(l, s, n)])
    decreases |s| - n
  {
    if n < |s| && n < l.pkts && Minus(s[n].time, s[0].time) <= l.time {
      var g, h := s[..n], s[..n + 1];
      assert h == g + [s[n]];
      forall i | 0 <= i < |h| ensures Minus(h[i].time, h[0].time) <= l.time {
        assert i < n ==> h[i] == g[i];
      }
      ExtendFits(l, s, n + 1);
    }
  }

  /** Every group that fits and starts s is at most as long as the greedy one. */
  lemma {:induction false} ExtendIsLongest(l: Limits, s: seq<Spec>, n: nat, m: nat)
    requires 0 < n <= |s| && n <= m <= |s| && Fits(l, s[..m])
    ensures m <= Extend(l, s, n)
    decreases |s| - n
  {
    if n < m {
      assert s[..m][n] == s[n] && s[..m][0] == s[0];
      ExtendIsLongest(l, s, n + 1, m);
    }
  }

  lemma {:induction false} GreedyPartitions(l: Limits, s: seq<Spec>)
    requires LimitsOk(l)
    ensures Partition(l, Greedy(l, s), s)
    decreases |s|
  {
    if s != [] {
      var n := Extend(l, s, 1);
      FitsOne(l, s[0]);
      assert s[..1] == [s[0]];
      ExtendFits(l, s, 1);
      GreedyPartitions(l, s[n..]);
      assert s == s[..n] + s[n..];
      var gs := Greedy(l, s);
      assert gs[1..] == Greedy(l, s[n..]);
      forall i | 0 <= i < |gs| ensures Fits(l, gs[i]) {
        assert i > 0 ==> gs[i] == gs[1..][i - 1];
      }
    }
  }

  lemma FitsOne(l: Limits, x: Spec)
    requires LimitsOk(l)
    ensures Fits(l, [x])
  {
    assert Minus(x.time, x.time) == 0;
  }

  /** A part of a group that fits, fits. */
  lemma FitsInside(l: Limits, g: seq<Spec>, k: nat)
    requires Sorted(g) && k < |g| && Fits(l, g)
    ensures Fits(l, g[k..])
  {
    forall i | 0 <= i < |g[k..]| ensures Minus(g[k..][i].time, g[k..][0].time) <= l.time {
      MinusShrinks(g[k + i].time, g[k].time, g[0].time);
    }
  }

  lemma MinusShrinks(a: U64, b: U64, c: U64)
    requires c <= b <= a
    ensures Minus(a, b) <= Minus(a, c)
  {
    assert Minus(a, b) == a - b && Minus(a, c) == a - c;
  }

  /** A bunch started later does not end earlier. */
  lemma ReachesAsFar(l: Limits, s: seq<Spec>, k: nat)
    requires LimitsOk(l) && Sorted(s) && k < |s| && k < Extend(l, s, 1)
    ensures Extend(l, s, 1) <= k + Extend(l, s[k..], 1)
  {
    hide Fits;
    var n, t := Extend(l, s, 1), s[k..];
    FitsOne(l, s[0]);
    assert s[..1] == [s[0]];
    ExtendFits(l, s, 1);
    FitsInside(l, s[..n], k);
    assert s[..n][k..] == t[..n - k];
    ExtendIsLongest(l, t, 1, n - k);
  }

  lemma SortedParts(s: seq<Spec>)
    requires Sorted(s)
    ensures forall n :: 0 <= n <= |s| ==> Sorted(s[n..])
  {
  }

  /** Leaving out a front part never needs more bunches. */
  lemma {:induction false} FewerForLess(l: Limits, s: seq<Spec>, k: nat)
    requires LimitsOk(l) && Sorted(s) && k <= |s|
    ensures |Greedy(l, s[k..])| <= |Greedy(l, s)|
    decreases |s|
  {
    hide Extend, LimitsOk, Sorted;
    if s != [] && k < |s| {
      SortedParts(s);
      var n := Extend(l, s, 1);
      var t := s[k..];
      if n <= k {
        FewerForLess(l, s[n..], k - n);
        assert s[n..][k - n..] == t;
      } else {
        ReachesAsFar(l, s, k);
        var m := Extend(l, t, 1);
        FewerForLess(l, s[n..], k + m - n);
        assert s[n..][k + m - n..] == t[m..];
      }
    }
  }

  /** No way to cut a time-ordered trace within the limits takes fewer bunches. */
  lemma {:induction false} GreedyIsBest(l: Limits, s: seq<Spec>, gs: seq<seq<Spec>>)
    requires LimitsOk(l) && Sorted(s) && Partition(l, gs, s)
    ensures |Greedy(l, s)| <= |gs|
    decreases |gs|
  {
    if s != [] {
      var m, n := |gs[0]|, Extend(l, s, 1);
      assert s[..m] == gs[0] && s[m..] == Concat(gs[1..]);
      ExtendIsLongest(l, s, 1, m);
      GreedyIsBest(l, s[m..], gs[1..]);
      FewerForLess(l, s[m..], n - m);
      assert s[m..][n - m..] == s[n..];
    }
  }

  // ---------- one more event ----------

  /** bunch_done */
  predicate BunchDone(l: Limits, npkts: nat, start: U64, x: Spec) {
    npkts >= l.pkts || Minus(x.time, start) > l.time
  }

  /** Grouping event by event: the groups that are done, and the one being collected. */
  datatype Progress = Progress(done: seq<seq<Spec>>, last: seq<Spec>)

  function Add(l: Limits, p: Progress, x: Spec): Progress {
    if p.last != [] && BunchDone(l, |p.last|, p.last[0].time, x) then Progress(p.done + [p.last], [x])
    else Progress(p.done, p.last + [x])
  }

  function Groups(p: Progress): seq<seq<Spec>> {
    if p.last == [] then p.done else p.done + [p.last]
  }

  function AddAll(l: Limits, s: seq<Spec>): (p: Progress)
    ensures p.last == [] ==> p.done == [] && s == []
    ensures s != [] ==> p.last != [] && p.last[|p.last| - 1] == s[|s| - 1]
  {
    if s == [] then Progress([], []) else Add(l, AddAll(l, s[..|s| - 1]), s[|s| - 1])
  }

  lemma {:induction false} ExtendMore(l: Limits, s: seq<Spec>, x: Spec, n: nat)
    requires 0 < n <= |s|
    ensures var k := Extend(l, s, n);
      Extend(l, s + [x], n) == if k == |s| && !BunchDone(l, |s|, s[0].time, x) then |s| + 1 else k
    decreases |s| - n
  {
    if n < |s| {
      if n < l.pkts && Minus(s[n].time, s[0].time) <= l.time {
        ExtendMore(l, s, x, n + 1);
      }
    }
  }

  lemma AddAllMore(l: Limits, s: seq<Spec>, x: Spec)
    ensures AddAll(l, s + [x]) == Add(l, AddAll(l, s), x)
  {
    assert (s + [x])[..|s|] == s;
  }

  lemma AddAllOne(l: Limits, x: Spec)
    ensures AddAll(l, [x]) == Progress([], [x]) && Extend(l, [x], 1) == 1
  {
    assert |[x][..0]| == 0;
    assert [] + [x] == [x];
  }

  lemma DoneFirst(l: Limits, g: seq<Spec>, x: Spec)
    requires g != [] && BunchDone(l, |g|, g[0].time, x)
    ensures Add(l, Progress([], g), x) == Later(g, Progress([], [x]))
  {
    assert [] + [g] == [g] + [];
  }

  /** Once the first group is done the rest is grouped as if it came alone. */
  lemma {:induction false} AddAllRest(l: Limits, s: seq<Spec>)
    requires s != []
    ensures Extend(l, s, 1) == |s| ==> AddAll(l, s) == Progress([], s)
    ensures Extend(l, s, 1) < |s| ==>
      AddAll(l, s) == Later(s[..Extend(l, s, 1)], AddAll(l, s[Extend(l, s, 1)..]))
    decreases |s|
  {
    hide BunchDone, AddAll, Extend;
    var k := |s| - 1;
    var t, x := s[..k], s[k];
    assert s == t + [x];
    if t == [] {
      AddAllOne(l, x);
      assert s == [x];
    } else {
      AddAllRest(l, t);
      ExtendMore(l, t, x, 1);
      AddAllMore(l, t, x);
      var n := Extend(l, t, 1);
      if n < k {
        AddAllMore(l, t[n..], x);
        assert s[..n] == t[..n] && s[n..] == t[n..] + [x];
        AddLater(l, t[..n], AddAll(l, t[n..]), x);
      } else if BunchDone(l, k, t[0].time, x) {
        assert s[..k] == t && s[k..] == [x];
        AddAllOne(l, x);
        DoneFirst(l, t, x);
      }
    }
  }

  /** With one more group done before all the others. */
  function Later(g: seq<Spec>, p: Progress): Progress {
    Progress([g] + p.done, p.last)
  }

  lemma AddLater(l: Limits, g: seq<Spec>, p: Progress, x: Spec)
    ensures Add(l, Later(g, p), x) == Later(g, Add(l, p, x))
  {
    assert ([g] + p.done) + [p.last] == [g] + (p.done + [p.last]);
  }

  /** Event by event comes to the same as greedy grouping. */
  lemma {:induction false} GreedyAddAll(l: Limits, s: seq<Spec>)
    ensures Groups(AddAll(l, s)) == Greedy(l, s)
    decreases |s|
  {
    if s != [] {
      var n := Extend(l, s, 1);
      AddAllRest(l, s);
      if n < |s| {
        GreedyAddAll(l, s[n..]);
        var p := AddAll(l, s[n..]);
        assert ([s[..n]] + p.done) + [p.last] == [s[..n]] + (p.done + [p.last]);
      } else {
        assert s[..n] == s && |s[n..]| == 0;
        assert [] + [s] == [s] + [];
      }
    }
  }
}
