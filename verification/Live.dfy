/** Sets of live times as sorted lists of separated intervals, and what adding an interval means. */
module Live {

  import opened Words

  /** struct p_live: live from dt to ct, both included. */
  datatype Span = Span(dt: int, ct: int)

  /** inside() */
  predicate Inside(p: Span, q: Span) {
    (p.dt <= q.dt && q.dt <= p.ct) || (p.dt <= q.ct && q.ct <= p.ct) || (q.dt < p.dt && p.ct < q.ct)
  }

  function Hull(p: Span, q: Span): Span {
    Span(Min(p.dt, q.dt), Max(p.ct, q.ct))
  }

  /** Well-formed intervals in increasing order that neither overlap nor touch. */
  ghost predicate Separated(s: seq<Span>) {
    (forall i :: 0 <= i < |s| ==> s[i].dt <= s[i].ct) &&
    (forall i, j :: 0 <= i < j < |s| ==> s[i].ct < s[j].dt)
  }

  /** The list after adding q: the intervals q meets are merged into one. */
  ghost function Added(s: seq<Span>, q: Span): seq<Span> {
    if s == [] then [q]
    else if s[0].ct < q.dt then [s[0]] + Added(s[1..], q)
    else if q.ct < s[0].dt then [q] + s
    else Added(s[1..], Hull(s[0], q))
  }

  /** Time measured in half units, so that a point between two whole times can be named.
      z is live if some interval of s reaches over it. */
  ghost predicate Covers(p: Span, z: int) {
    2 * p.dt <= z <= 2 * p.ct
  }

  ghost predicate Live(s: seq<Span>, z: int) {
    exists i :: 0 <= i < |s| && Covers(s[i], z)
  }

  lemma LiveCons(p: Span, s: seq<Span>, z: int)
    ensures Live([p] + s, z) <==> Covers(p, z) || Live(s, z)
  {
    var t := [p] + s;
    if Live(t, z) {
      var i :| 0 <= i < |t| && Covers(t[i], z);
      assert i > 0 ==> t[i] == s[i - 1];
    }
    if Live(s, z) {
      var i :| 0 <= i < |s| && Covers(s[i], z);
      assert t[i + 1] == s[i];
    }
    assert t[0] == p;
  }

  lemma {:induction false} AddedAbove(s: seq<Span>, q: Span, b: int)
    requires b < q.dt && forall i :: 0 <= i < |s| ==> b < s[i].dt
    ensures forall i :: 0 <= i < |Added(s, q)| ==> b < Added(s, q)[i].dt
  {
    if s != [] {
      AddedAbove(s[1..], if s[0].ct < q.dt then q else Hull(s[0], q), b);
    }
  }

  lemma {:induction false} AddedSeparated(s: seq<Span>, q: Span)
    requires Separated(s) && q.dt <= q.ct
    ensures Separated(Added(s, q))
  {
    if s != [] {
      if s[0].ct < q.dt {
        AddedSeparated(s[1..], q);
        AddedAbove(s[1..], q, s[0].ct);
      } else if s[0].dt <= q.ct {
        AddedSeparated(s[1..], Hull(s[0], q));
      }
    }
  }

  /** Adding an interval makes live exactly what was live before and what the interval reaches over. */
  lemma {:induction false} AddedLive(s: seq<Span>, q: Span, z: int)
    requires Separated(s) && q.dt <= q.ct
    ensures Live(Added(s, q), z) <==> Live(s, z) || Covers(q, z)
  {
    if s == [] {
      LiveCons(q, [], z);
    } else {
      assert s == [s[0]] + s[1..];
      LiveCons(s[0], s[1..], z);
      if s[0].ct < q.dt {
        AddedLive(s[1..], q, z);
        LiveCons(s[0], Added(s[1..], q), z);
      } else if q.ct < s[0].dt {
        LiveCons(q, s, z);
      } else {
        AddedLive(s[1..], Hull(s[0], q), z);
      }
    }
  }

  /** An interval of a separated list is a longest stretch without a gap: live throughout, dead right before and
      after. */
  lemma Stretch(s: seq<Span>, i: nat)
    requires Separated(s) && i < |s|
    ensures forall z :: Covers(s[i], z) ==> Live(s, z)
    ensures !Live(s, 2 * s[i].dt - 1) && !Live(s, 2 * s[i].ct + 1)
  {
    forall j | 0 <= j < |s|
      ensures !Covers(s[j], 2 * s[i].dt - 1) && !Covers(s[j], 2 * s[i].ct + 1)
    {
      if j < i {
        assert s[j].ct < s[i].dt;
      } else if i < j {
        assert s[i].ct < s[j].dt;
      }
    }
  }

  /** A separated list is determined by which times are live. */
  lemma {:induction false} LiveDetermines(s: seq<Span>, t: seq<Span>)
    requires Separated(s) && Separated(t) && forall z :: Live(s, z) <==> Live(t, z)
    ensures s == t
  {
    if s == [] || t == [] {
      if s != [] {
        assert Covers(s[0], 2 * s[0].dt);
        assert Live(s, 2 * s[0].dt);
      }
      if t != [] {
        assert Covers(t[0], 2 * t[0].dt);
        assert Live(t, 2 * t[0].dt);
      }
    } else {
      FirstAtMost(s, t);
      FirstAtMost(t, s);
      assert s[0].dt == t[0].dt;
      EndAtMost(s, t);
      EndAtMost(t, s);
      assert s == [s[0]] + s[1..] && t == [t[0]] + t[1..];
      assert s[0] == t[0];
      assert Separated(s[1..]) && Separated(t[1..]);
      forall z ensures Live(s[1..], z) <==> Live(t[1..], z) {
        LiveCons(s[0], s[1..], z);
        LiveCons(t[0], t[1..], z);
        if Live(s[1..], z) {
          LaterIsApart(s, z);
        }
        if Live(t[1..], z) {
          LaterIsApart(t, z);
        }
      }
      LiveDetermines(s[1..], t[1..]);
    }
  }

  lemma FirstAtMost(s: seq<Span>, t: seq<Span>)
    requires Separated(s) && Separated(t) && s != [] && t != [] && forall z :: Live(t, z) ==> Live(s, z)
    ensures s[0].dt <= t[0].dt
  {
    var z := 2 * t[0].dt;
    assert Covers(t[0], z);
    assert Live(t, z);
    var i :| 0 <= i < |s| && Covers(s[i], z);
    assert i > 0 ==> s[0].ct < s[i].dt;
  }

  lemma EndAtMost(s: seq<Span>, t: seq<Span>)
    requires Separated(s) && Separated(t) && s != [] && t != [] && s[0].dt == t[0].dt
    requires forall z :: Live(s, z) ==> Live(t, z)
    ensures s[0].ct <= t[0].ct
  {
    var z := 2 * t[0].ct + 1;
    Stretch(t, 0);
    assert !Live(s, z);
    assert !Covers(s[0], z);
  }

  lemma LaterIsApart(s: seq<Span>, z: int)
    requires Separated(s) && s != [] && Live(s[1..], z)
    ensures !Covers(s[0], z)
  {
    var i :| 0 <= i < |s[1..]| && Covers(s[1..][i], z);
    assert s[0].ct < s[i + 1].dt;
  }

  // ---------- whole runs ----------

  /** The live list after a run of additions. */
  ghost function Run(adds: seq<Span>): seq<Span> {
    if adds == [] then [] else Added(Run(adds[..|adds| - 1]), adds[|adds| - 1])
  }

  ghost predicate Proper(adds: seq<Span>) {
    forall i :: 0 <= i < |adds| ==> adds[i].dt <= adds[i].ct
  }

  lemma {:induction false} RunLive(adds: seq<Span>)
    requires Proper(adds)
    ensures Separated(Run(adds))
    ensures forall z :: Live(Run(adds), z) <==> Live(adds, z)
  {
    if adds != [] {
      var n := |adds| - 1;
      var (front, q) := (adds[..n], adds[n]);
      RunLive(front);
      AddedSeparated(Run(front), q);
      forall z ensures Live(Run(adds), z) <==> Live(adds, z) {
        AddedLive(Run(front), q, z);
        if Live(adds, z) {
          var i :| 0 <= i < |adds| && Covers(adds[i], z);
          assert i < n ==> Covers(front[i], z);
        }
        if Live(front, z) {
          var i :| 0 <= i < |front| && Covers(front[i], z);
          assert Covers(adds[i], z);
        }
      }
    }
  }

  /** The order in which intervals are added does not matter, nor do repetitions. */
  lemma OrderDoesNotMatter(a: seq<Span>, b: seq<Span>)
    requires Proper(a) && Proper(b) && forall p :: p in a <==> p in b
    ensures Run(a) == Run(b)
  {
    RunLive(a);
    RunLive(b);
    forall z ensures Live(a, z) <==> Live(b, z) {
      if Live(a, z) {
        var i :| 0 <= i < |a| && Covers(a[i], z);
        assert a[i] in b;
      }
      if Live(b, z) {
        var i :| 0 <= i < |b| && Covers(b[i], z);
        assert b[i] in a;
      }
    }
    LiveDetermines(Run(a), Run(b));
  }

  // ---------- groups of added intervals ----------

  /** q lies in p altogether. */
  predicate Part(q: Span, p: Span) {
    p.dt <= q.dt && q.ct <= p.ct
  }

  /** From interval to interval of adds, each meeting the next one. */
  ghost predicate Chain(adds: seq<Span>, g: seq<Span>) {
    && g != [] && (forall i :: 0 <= i < |g| ==> g[i] in adds)
    && (forall i :: 0 <= i < |g| - 1 ==> Inside(g[i], g[i + 1]))
  }

  /** p and q belong to the same overlap-connected group of added intervals. */
  ghost predicate Connected(adds: seq<Span>, p: Span, q: Span) {
    exists g :: Chain(adds, g) && g[0] == p && g[|g| - 1] == q
  }

  lemma CoversIsLive(s: seq<Span>, p: Span, z: int)
    requires p in s
    ensures Covers(p, z) ==> Live(s, z)
  {
    var i :| 0 <= i < |s| && s[i] == p;
  }

  /** Every added interval lies in one interval of the set. */
  lemma InOnePart(adds: seq<Span>, p: Span) returns (i: nat)
    requires Proper(adds) && p in adds
    ensures i < |Run(adds)| && Part(p, Run(adds)[i])
  {
    RunLive(adds);
    var s := Run(adds);
    CoversIsLive(adds, p, 2 * p.dt);
    i :| 0 <= i < |s| && Covers(s[i], 2 * p.dt);
    Stretch(s, i);
    CoversIsLive(adds, p, 2 * s[i].ct + 1);
  }

  /** In an interval of the set: an added one that ends at its end can be reached from any other. */
  lemma {:induction false} ReachEnd(adds: seq<Span>, i: nat, g: seq<Span>) returns (g': seq<Span>)
    requires Proper(adds) && i < |Run(adds)| && Chain(adds, g) && Part(g[|g| - 1], Run(adds)[i])
    ensures Chain(adds, g') && g'[0] == g[0] && g'[|g'| - 1].ct == Run(adds)[i].ct
    decreases Run(adds)[i].ct - g[|g| - 1].ct
  {
    var s, p := Run(adds)[i], g[|g| - 1];
    if p.ct == s.ct {
      return g;
    }
    RunLive(adds);
    var q := CoveredBy(adds, 2 * p.ct + 1, i);
    g' := ReachEnd(adds, i, g + [q]);
  }

  lemma CoveredBy(adds: seq<Span>, z: int, i: nat) returns (q: Span)
    requires Proper(adds) && i < |Run(adds)| && Covers(Run(adds)[i], z)
    ensures q in adds && Covers(q, z) && Part(q, Run(adds)[i])
  {
    RunLive(adds);
    var s := Run(adds);
    CoversIsLive(s, s[i], z);
    var j :| 0 <= j < |adds| && Covers(adds[j], z);
    q := adds[j];
    var l := InOnePart(adds, q);
    SamePart(s, i, l, z);
  }

  lemma SamePart(s: seq<Span>, i: nat, j: nat, z: int)
    requires Separated(s) && i < |s| && j < |s| && Covers(s[i], z) && Covers(s[j], z)
    ensures i == j
  {
  }

  lemma {:induction false} ChainStays(adds: seq<Span>, g: seq<Span>, i: nat)
    requires Proper(adds) && Chain(adds, g) && i < |Run(adds)| && Part(g[0], Run(adds)[i])
    ensures forall l :: 0 <= l < |g| ==> Part(g[l], Run(adds)[i])
    decreases |g|
  {
    if |g| > 1 {
      var p, q := g[0], g[1];
      assert p in adds && q in adds;
      RunLive(adds);
      var j := InOnePart(adds, q);
      var z := 2 * Max(p.dt, q.dt);
      SamePart(Run(adds), i, j, z);
      var r := g[1..];
      assert forall l :: 0 <= l < |r| ==> r[l] == g[l + 1];
      ChainStays(adds, r, i);
      assert forall l :: 1 <= l < |g| ==> g[l] == r[l - 1];
    }
  }

  lemma ReverseChain(adds: seq<Span>, g: seq<Span>) returns (r: seq<Span>)
    requires Chain(adds, g) && Proper(adds)
    ensures Chain(adds, r) && r[0] == g[|g| - 1] && r[|r| - 1] == g[0]
  {
    var n := |g|;
    r := seq(n, l requires 0 <= l < n => g[n - 1 - l]);
    forall l | 0 <= l < n - 1 ensures Inside(r[l], r[l + 1]) {
      assert Inside(g[n - 2 - l], g[n - 1 - l]);
      assert g[n - 2 - l] in adds && g[n - 1 - l] in adds;
    }
  }

  lemma JoinChains(adds: seq<Span>, a: seq<Span>, b: seq<Span>)
    requires Chain(adds, a) && Chain(adds, b) && Inside(a[|a| - 1], b[0])
    ensures Chain(adds, a + b) && (a + b)[0] == a[0] && (a + b)[|a + b| - 1] == b[|b| - 1]
  {
  }

  /** Added intervals lie in the same interval of the set exactly if they belong to the same group. */
  lemma GroupsAreParts(adds: seq<Span>, i: nat, p: Span, q: Span)
    requires Proper(adds) && i < |Run(adds)| && p in adds && q in adds && Part(p, Run(adds)[i])
    ensures Connected(adds, p, q) <==> Part(q, Run(adds)[i])
  {
    if Connected(adds, p, q) {
      var g :| Chain(adds, g) && g[0] == p && g[|g| - 1] == q;
      ChainStays(adds, g, i);
    }
    if Part(q, Run(adds)[i]) {
      assert Chain(adds, [p]) && Chain(adds, [q]);
      var a := ReachEnd(adds, i, [p]);
      var b := ReachEnd(adds, i, [q]);
      assert b[|b| - 1] in adds && a[|a| - 1] in adds;
      var r := ReverseChain(adds, b);
      JoinChains(adds, a, r);
    }
  }

  /** Each interval of the set is the hull of its group: the added ones in it begin at its beginning, at the
      earliest, and end at its end, at the latest, and some of them do. */
  lemma HullOfGroup(adds: seq<Span>, i: nat) returns (first: Span, last: Span)
    requires Proper(adds) && i < |Run(adds)|
    ensures var s := Run(adds)[i];
      && first in adds && last in adds && Part(first, s) && Part(last, s)
      && Connected(adds, first, last) && Hull(first, last) == s
  {
    RunLive(adds);
    var s := Run(adds)[i];
    assert s.dt <= s.ct;
    first := CoveredBy(adds, 2 * s.dt, i);
    last := CoveredBy(adds, 2 * s.ct, i);
    GroupsAreParts(adds, i, first, last);
  }

  // ---------- total live time ----------

  ghost function Total(s: seq<Span>): int {
    if s == [] then 0 else s[0].ct - s[0].dt + Total(s[1..])
  }

  lemma {:induction false} TotalSplit(a: seq<Span>, b: seq<Span>)
    ensures Total(a + b) == Total(a) + Total(b)
  {
    if a == [] {
      assert a + b == b;
    } else {
      assert (a + b)[1..] == a[1..] + b;
      TotalSplit(a[1..], b);
    }
  }

  /** How many of the unit steps between lo and hi lie inside an interval of s. */
  ghost function Steps(s: seq<Span>, lo: int, hi: int): nat
    decreases hi - lo
  {
    if hi <= lo then 0 else Steps(s, lo, hi - 1) + if Live(s, 2 * hi - 1) then 1 else 0
  }

  lemma {:induction false} StepsSplit(s: seq<Span>, lo: int, mid: int, hi: int)
    requires lo <= mid <= hi
    ensures Steps(s, lo, hi) == Steps(s, lo, mid) + Steps(s, mid, hi)
    decreases hi - mid
  {
    if mid < hi {
      StepsSplit(s, lo, mid, hi - 1);
    }
  }

  lemma {:induction false} StepsSame(s: seq<Span>, t: seq<Span>, lo: int, hi: int)
    requires forall z :: 2 * lo < z < 2 * hi ==> (Live(s, z) <==> Live(t, z))
    ensures Steps(s, lo, hi) == Steps(t, lo, hi)
    decreases hi - lo
  {
    if lo < hi {
      StepsSame(s, t, lo, hi - 1);
    }
  }

  lemma {:induction false} StepsAll(s: seq<Span>, lo: int, hi: int)
    requires lo <= hi && forall z :: 2 * lo < z < 2 * hi ==> Live(s, z)
    ensures Steps(s, lo, hi) == hi - lo
    decreases hi - lo
  {
    if lo < hi {
      StepsAll(s, lo, hi - 1);
    }
  }

  lemma {:induction false} StepsNone(s: seq<Span>, lo: int, hi: int)
    requires forall z :: 2 * lo < z < 2 * hi ==> !Live(s, z)
    ensures Steps(s, lo, hi) == 0
    decreases hi - lo
  {
    if lo < hi {
      StepsNone(s, lo, hi - 1);
    }
  }

  /** The lengths of a separated list add up to the number of live unit steps. */
  lemma {:induction false} TotalIsSteps(s: seq<Span>, lo: int, hi: int)
    requires Separated(s) && lo <= hi && forall i :: 0 <= i < |s| ==> lo <= s[i].dt && s[i].ct <= hi
    ensures Total(s) == Steps(s, lo, hi)
  {
    if s == [] {
      StepsNone(s, lo, hi);
    } else {
      var p, r := s[0], s[1..];
      assert s == [p] + r;
      forall z ensures Live(s, z) <==> Covers(p, z) || Live(r, z) {
        LiveCons(p, r, z);
      }
      forall z | z <= 2 * p.ct ensures !Live(r, z) {
        forall i | 0 <= i < |r| ensures !Covers(r[i], z) {
          assert r[i] == s[i + 1];
        }
      }
      forall i | 0 <= i < |r| ensures p.ct <= r[i].dt && r[i].ct <= hi {
        assert r[i] == s[i + 1];
      }
      StepsSplit(s, lo, p.dt, hi);
      StepsSplit(s, p.dt, p.ct, hi);
      StepsNone(s, lo, p.dt);
      StepsAll(s, p.dt, p.ct);
      StepsSame(s, r, p.ct, hi);
      TotalIsSteps(r, p.ct, hi);
    }
  }

  /** After any run of additions the lengths add up to the time that some added interval reaches over. */
  lemma TotalLiveTime(adds: seq<Span>, lo: int, hi: int)
    requires Proper(adds) && lo <= hi
    requires forall i :: 0 <= i < |adds| ==> lo <= adds[i].dt && adds[i].ct <= hi
    ensures Total(Run(adds)) == Steps(adds, lo, hi)
  {
    RunLive(adds);
    var s := Run(adds);
    forall i | 0 <= i < |s| ensures lo <= s[i].dt && s[i].ct <= hi {
      assert Covers(s[i], 2 * s[i].dt) && Covers(s[i], 2 * s[i].ct);
      assert Live(s, 2 * s[i].dt) && Live(s, 2 * s[i].ct);
      var j :| 0 <= j < |adds| && Covers(adds[j], 2 * s[i].dt);
      var k :| 0 <= k < |adds| && Covers(adds[k], 2 * s[i].ct);
    }
    TotalIsSteps(s, lo, hi);
    StepsSame(s, adds, lo, hi);
  }

  // ---------- absorbing one interval at a time ----------

  /** Taking out any interval q meets and adding the hull instead comes to the same. */
  lemma {:induction false} Absorb(s: seq<Span>, i: nat, q: Span)
    requires Separated(s) && i < |s| && q.dt <= q.ct && Inside(s[i], q)
    ensures Added(s[..i] + s[i + 1..], Hull(s[i], q)) == Added(s, q)
  {
    var t := s[..i] + s[i + 1..];
    if i == 0 {
      assert t == s[1..];
    } else {
      assert s[0].ct < s[i].dt && s[0].dt <= s[0].ct;
      assert t[0] == s[0] && t[1..] == s[1..][..i - 1] + s[1..][i..];
      AbsorbRest(s[0], s[1..], i - 1, q);
      if s[0].ct < q.dt {
        Absorb(s[1..], i - 1, q);
      } else {
        Absorb(s[1..], i - 1, Hull(s[0], q));
      }
    }
  }

  /** q meets an interval further on: then it does not end before the first one begins. */
  lemma AbsorbRest(p: Span, r: seq<Span>, i: nat, q: Span)
    requires Separated([p] + r) && i < |r| && q.dt <= q.ct && Inside(r[i], q)
    ensures Separated(r) && p.dt <= q.ct && p.dt <= Hull(r[i], q).ct
    ensures p.ct < q.dt <==> p.ct < Hull(r[i], q).dt
    ensures p.ct >= q.dt ==> Inside(r[i], Hull(p, q)) && Hull(p, Hull(r[i], q)) == Hull(r[i], Hull(p, q))
  {
    var s := [p] + r;
    assert s[i + 1] == r[i] && s[0] == p;
    assert forall j :: 0 <= j < |r| ==> r[j] == s[j + 1];
    hide Separated;
  }

  /** Where q meets nothing it goes in between. */
  lemma {:induction false} AddedBetween(a: seq<Span>, q: Span, b: seq<Span>)
    requires forall i :: 0 <= i < |a| ==> a[i].ct < q.dt
    requires forall i :: 0 <= i < |b| ==> q.ct < b[i].dt && b[i].dt <= b[i].ct
    requires q.dt <= q.ct
    ensures Added(a + b, q) == a + [q] + b
  {
    if a == [] {
      assert a + b == b;
      assert a + [q] + b == [q] + b;
    } else {
      assert (a + b)[1..] == a[1..] + b;
      AddedBetween(a[1..], q, b);
      assert a + [q] + b == [a[0]] + (a[1..] + [q] + b);
    }
  }
}
