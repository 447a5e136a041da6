/** How blkiomon pairs issue and completion traces: a chained hash table of traces that wait for their match. */
module Blkiomon {

  /** kind: the action bits that must agree; issue, complete: whether the trace is a D or a C trace. */
  datatype Trace = Trace(device: nat, sector: nat, kind: nat, issue: bool, complete: bool, time: nat)

  datatype Key = Key(device: nat, sector: nat, kind: nat)

  const TRACE_HASH_SIZE := 128

  function KeyOf(t: Trace): Key {
    Key(t.device, t.sector, t.kind)
  }

  function Slot(sector: nat): (i: nat)
    ensures i < TRACE_HASH_SIZE
  {
    sector % TRACE_HASH_SIZE
  }

  // ---------- what it computes ----------

  /** The waiting traces, the two counters, and per key all traces since its last match. */
  datatype Books = Books(waiting: map<Key, Trace>, matches: nat, mismatches: nat, since: map<Key, seq<Trace>>)

  /** A stored trace with the same time counts as the younger one. */
  function Older(stored: Trace, t: Trace): Trace {
    if stored.time < t.time then stored else t
  }

  function Younger(stored: Trace, t: Trace): Trace {
    if stored.time < t.time then t else stored
  }

  predicate Matches(stored: Trace, t: Trace) {
    Older(stored, t).issue && Younger(stored, t).complete
  }

  ghost function Since(b: Books, k: Key): seq<Trace> {
    if k in b.since then b.since[k] else []
  }

  /** One trace. */
  ghost function Step(b: Books, t: Trace): Books {
    var k := KeyOf(t);
    if k !in b.waiting then
      Books(b.waiting[k := t], b.matches, b.mismatches, b.since[k := Since(b, k) + [t]])
    else if Matches(b.waiting[k], t) then
      Books(b.waiting - {k}, b.matches + 1, b.mismatches, b.since[k := []])
    else
      Books(b.waiting[k := Younger(b.waiting[k], t)], b.matches, b.mismatches + 1, b.since[k := Since(b, k) + [t]])
  }

  ghost function All(ts: seq<Trace>): Books {
    if ts == [] then Books(map[], 0, 0, map[]) else Step(All(ts[..|ts| - 1]), ts[|ts| - 1])
  }

  /** t is one of the traces s and none of them is later. */
  ghost predicate Latest(t: Trace, s: seq<Trace>) {
    t in s && forall x :: x in s ==> x.time <= t.time
  }

  /** For every key: a trace waits exactly if there has been one since the last match, and it is the latest. */
  ghost predicate Kept(b: Books) {
    && (forall k :: k in b.waiting ==> KeyOf(b.waiting[k]) == k && Latest(b.waiting[k], Since(b, k)))
    && (forall k :: k !in b.waiting ==> Since(b, k) == [])
  }

  lemma StepKept(b: Books, t: Trace)
    requires Kept(b)
    ensures Kept(Step(b, t))
  {
    var k, b' := KeyOf(t), Step(b, t);
    assert forall j :: j != k ==> Since(b', j) == Since(b, j) && (j in b'.waiting <==> j in b.waiting);
    assert forall j :: j != k && j in b.waiting ==> b'.waiting[j] == b.waiting[j];
    StepLatest(b, t);
    hide Latest, Step, Since, Matches;
  }

  lemma StepLatest(b: Books, t: Trace)
    requires Kept(b)
    ensures var k, b' := KeyOf(t), Step(b, t);
      if k in b'.waiting then KeyOf(b'.waiting[k]) == k && Latest(b'.waiting[k], Since(b', k)) else Since(b', k) == []
  {
  }

  lemma StepCounts(b: Books, t: Trace)
    ensures var b' := Step(b, t);
      |b'.waiting| + 2 * b'.matches + b'.mismatches == |b.waiting| + 2 * b.matches + b.mismatches + 1
  {
    var k, b' := KeyOf(t), Step(b, t);
    if k !in b.waiting {
      assert b'.waiting.Keys == b.waiting.Keys + {k};
    } else if Matches(b.waiting[k], t) {
      assert b'.waiting.Keys == b.waiting.Keys - {k};
    } else {
      assert b'.waiting.Keys == b.waiting.Keys;
    }
    assert |b.waiting| == |b.waiting.Keys| && |b'.waiting| == |b'.waiting.Keys|;
  }

  /** Over any run: every trace waits, was matched with another one, or was dropped for a later one. */
  lemma {:induction false} Conservation(ts: seq<Trace>)
    ensures var b := All(ts);
      Kept(b) && |ts| == |b.waiting| + 2 * b.matches + b.mismatches
  {
    if ts != [] {
      var n := |ts| - 1;
      Conservation(ts[..n]);
      StepKept(All(ts[..n]), ts[n]);
      StepCounts(All(ts[..n]), ts[n]);
    }
  }

  /** w waits for a trace like t. */
  predicate Alike(w: Trace, t: Trace) {
    w.device == t.device && w.sector == t.sector && w.kind == t.kind
  }

  /** What one trace t does to the set of waiting traces and to the counters: nothing alike waits, so it waits; or
      the one trace alike and t are a D trace and a later C trace, and leave as a match; or the later one waits. */
  ghost predicate Moves(waiting: set<Trace>, t: Trace, waiting': set<Trace>, matches: int, mismatches: int) {
    && ((forall w :: w in waiting ==> !Alike(w, t)) ==>
         waiting' == waiting + {t} && matches == mismatches == 0)
    && forall w :: w in waiting && Alike(w, t) ==>
         if (w.time < t.time && w.issue && t.complete) || (t.time <= w.time && t.issue && w.complete) then
           waiting' == waiting - {w} && matches == 1 && mismatches == 0
         else
           waiting' == waiting - {w} + {if w.time < t.time then t else w} && matches == 0 && mismatches == 1
  }

  lemma StepMoves(b: Books, t: Trace)
    requires forall k :: k in b.waiting ==> KeyOf(b.waiting[k]) == k
    ensures var b' := Step(b, t);
      Moves(b.waiting.Values, t, b'.waiting.Values, b'.matches - b.matches, b'.mismatches - b.mismatches)
  {
    var k, m := KeyOf(t), b.waiting;
    assert forall w :: w in m.Values ==> KeyOf(w) in m && m[KeyOf(w)] == w;
    assert forall w :: w in m.Values && Alike(w, t) ==> k in m && m[k] == w;
    if k in m {
      assert m[k] in m.Values && Alike(m[k], t);
      ReplacedValue(m, k, Younger(m[k], t));
      RemovedValue(m, k);
    } else {
      AddedValue(m, k, t);
    }
  }

  lemma AddedValue(m: map<Key, Trace>, k: Key, t: Trace)
    requires k !in m
    ensures m[k := t].Values == m.Values + {t}
  {
    var n := m[k := t];
    assert forall j :: j in m ==> n[j] == m[j];
    assert n[k] == t;
    forall x | x in m.Values ensures x in n.Values {
      var j :| j in m && m[j] == x;
      assert n[j] == x;
    }
  }

  lemma RemovedValue(m: map<Key, Trace>, k: Key)
    requires k in m && forall j :: j in m ==> KeyOf(m[j]) == j
    ensures (m - {k}).Values == m.Values - {m[k]}
  {
    var n := m - {k};
    forall x | x in m.Values - {m[k]} ensures x in n.Values {
      var j :| j in m && m[j] == x;
      assert n[j] == x;
    }
  }

  lemma ReplacedValue(m: map<Key, Trace>, k: Key, t: Trace)
    requires k in m && KeyOf(t) == k && forall j :: j in m ==> KeyOf(m[j]) == j
    ensures m[k := t].Values == m.Values - {m[k]} + {t}
  {
    RemovedValue(m, k);
    AddedValue(m - {k}, k, t);
    assert (m - {k})[k := t] == m[k := t];
  }

  // ---------- how it computes it ----------

  /** The chain of a slot has the waiting traces of the keys that fall there, each once. */
  ghost predicate ChainOk(chain: seq<Trace>, i: nat, waiting: map<Key, Trace>) {
    && (forall j :: 0 <= j < |chain| ==>
      Slot(chain[j].sector) == i && KeyOf(chain[j]) in waiting && waiting[KeyOf(chain[j])] == chain[j])
    && (forall j, l :: 0 <= j < l < |chain| ==> KeyOf(chain[j]) != KeyOf(chain[l]))
    && (forall k :: k in waiting && Slot(k.sector) == i ==> waiting[k] in chain && KeyOf(waiting[k]) == k)
  }

  lemma ChainOther(chain: seq<Trace>, i: nat, waiting: map<Key, Trace>, waiting': map<Key, Trace>, k: Key)
    requires ChainOk(chain, i, waiting) && Slot(k.sector) != i && waiting' - {k} == waiting - {k}
    ensures ChainOk(chain, i, waiting')
  {
    assert forall j :: j != k ==> (j in waiting' <==> j in (waiting' - {k}));
    assert forall j :: j != k ==> (j in waiting <==> j in (waiting - {k}));
    assert forall j :: j != k && j in waiting ==> waiting'[j] == (waiting' - {k})[j] == waiting[j];
  }

  lemma ChainStore(chain: seq<Trace>, i: nat, waiting: map<Key, Trace>, t: Trace)
    requires ChainOk(chain, i, waiting) && Slot(t.sector) == i && KeyOf(t) !in waiting
    ensures ChainOk([t] + chain, i, waiting[KeyOf(t) := t])
  {
    var c := [t] + chain;
    assert forall j :: 0 < j < |c| ==> c[j] == chain[j - 1];
    assert forall x :: x in chain ==> x in c;
  }

  lemma ChainFetch(chain: seq<Trace>, i: nat, waiting: map<Key, Trace>, j: nat)
    requires ChainOk(chain, i, waiting) && j < |chain|
    ensures ChainOk(chain[..j] + chain[j + 1..], i, waiting - {KeyOf(chain[j])})
  {
    var c, k := chain[..j] + chain[j + 1..], KeyOf(chain[j]);
    forall l | 0 <= l < |c|
      ensures c[l] == chain[if l < j then l else l + 1] && KeyOf(c[l]) != k
    {
    }
    forall m | m in waiting - {k} && Slot(m.sector) == i ensures waiting[m] in c {
      var l :| 0 <= l < |chain| && chain[l] == waiting[m];
      assert c[if l < j then l else l - 1] == chain[l];
    }
  }

  class Monitor {
    const thash: array<seq<Trace>>
    var matches: nat
    var mismatches: nat
    ghost var waiting: map<Key, Trace>
    ghost var since: map<Key, seq<Trace>>

    ghost function State(): Books
      reads this
    {
      Books(waiting, matches, mismatches, since)
    }

    ghost predicate Valid()
      reads this, thash
    {
      && thash.Length == TRACE_HASH_SIZE
      && (forall k :: k in waiting ==> KeyOf(waiting[k]) == k)
      && forall i :: 0 <= i < TRACE_HASH_SIZE ==> ChainOk(thash[i], i, waiting)
    }

    constructor ()
      ensures Valid() && fresh(thash) && State() == All([])
    {
      thash := new seq<Trace>[TRACE_HASH_SIZE](_ => []);
      matches, mismatches, waiting, since := 0, 0, map[], map[];
    }

    method StoreTrace(t: Trace)
      requires Valid() && KeyOf(t) !in waiting
      modifies thash, this`waiting
      ensures Valid() && waiting == old(waiting)[KeyOf(t) := t]
    {
      hide ChainOk;
      var i := Slot(t.sector);
      ghost var was := waiting;
      ChainStore(thash[i], i, was, t);
      waiting := waiting[KeyOf(t) := t];
      forall l | 0 <= l < TRACE_HASH_SIZE && l != i ensures ChainOk(thash[l], l, waiting) {
        ChainOther(thash[l], l, was, waiting, KeyOf(t));
      }
      thash[i] := [t] + thash[i];
    }

    /** The trace waiting under the key of t, taken out of its chain. */
    method FetchTrace(t: Trace) returns (found: bool, stored: Trace)
      requires Valid()
      modifies thash, this`waiting
      ensures Valid() && (found <==> KeyOf(t) in old(waiting))
      ensures found ==> stored == old(waiting)[KeyOf(t)] && waiting == old(waiting) - {KeyOf(t)}
      ensures !found ==> waiting == old(waiting)
    {
      var i := Slot(t.sector);
      var chain := thash[i];
      var j := 0;
      found, stored := false, t;
      while j < |chain|
        invariant j <= |chain| && forall l :: 0 <= l < j ==> KeyOf(chain[l]) != KeyOf(t)
      {
        if KeyOf(chain[j]) == KeyOf(t) {
          found, stored := true, chain[j];
          Unchain(i, j);
          return;
        }
        j := j + 1;
      }
    }

    method Unchain(i: nat, j: nat)
      requires Valid() && i < TRACE_HASH_SIZE && j < |thash[i]|
      modifies thash, this`waiting
      ensures Valid() && waiting == old(waiting) - {KeyOf(old(thash[i][j]))}
    {
      ghost var was, k := waiting, KeyOf(thash[i][j]);
      assert Slot(k.sector) == i;
      hide ChainOk;
      ChainFetch(thash[i], i, was, j);
      waiting := waiting - {k};
      forall l | 0 <= l < TRACE_HASH_SIZE && l != i ensures ChainOk(thash[l], l, waiting) {
        ChainOther(thash[l], l, was, waiting, k);
      }
      thash[i] := thash[i][..j] + thash[i][j + 1..];
    }

    /** blkiomon_do_trace */
    method DoTrace(t: Trace)
      requires Valid()
      modifies thash, this
      ensures Valid() && State() == Step(old(State()), t)
      ensures Moves(old(waiting.Values), t, waiting.Values, matches - old(matches), mismatches - old(mismatches))
    {
      ghost var b := State();
      hide ChainOk;
      StepMoves(b, t);
      hide Moves;
      var found, stored := FetchTrace(t);
      if !found {
        StoreTrace(t);
        since := Step(b, t).since;
        return;
      }
      var older, young := t, stored;
      if stored.time < t.time {
        older, young := stored, t;
      }
      if older.issue && young.complete {
        matches := matches + 1;
        since := Step(b, t).since;
        return;
      }
      mismatches := mismatches + 1;
      StoreTrace(young);
      since := Step(b, t).since;
    }
  }
}
