/** One set of the cache as a list, most recently encached first, and when a lookup hits. */
module LruSpec {

  datatype Item = Item(idx: nat, data: seq<char>)

  /** s without the first item for idx. */
  ghost function Without(s: seq<Item>, idx: nat): (r: seq<Item>)
    ensures |r| <= |s|
  {
    if s == [] then [] else if s[0].idx == idx then s[1..] else [s[0]] + Without(s[1..], idx)
  }

  ghost predicate Has(s: seq<Item>, idx: nat) {
    exists i :: 0 <= i < |s| && s[i].idx == idx
  }

  ghost predicate Distinct(s: seq<Item>) {
    forall i, j :: 0 <= i < j < |s| ==> s[i].idx != s[j].idx
  }

  /** encache: the item moves or comes to the front; a full list loses its last item for a new index. */
  ghost function Encached(s: seq<Item>, link: nat, it: Item): seq<Item>
    requires link > 0
  {
    if Has(s, it.idx) then [it] + Without(s, it.idx)
    else if |s| < link then [it] + s
    else [it] + s[..link - 1]
  }

  lemma {:induction false} WithoutAt(s: seq<Item>, i: nat)
    requires i < |s| && Distinct(s)
    ensures Without(s, s[i].idx) == s[..i] + s[i + 1..]
  {
    if i == 0 {
    } else {
      WithoutAt(s[1..], i - 1);
      assert s[..i] + s[i + 1..] == [s[0]] + (s[1..][..i - 1] + s[1..][i..]);
    }
  }

  lemma {:induction false} WithoutAbsent(s: seq<Item>, idx: nat)
    requires !Has(s, idx)
    ensures Without(s, idx) == s
  {
    if s != [] {
      assert s[0].idx != idx;
      forall i | 0 <= i < |s[1..]| ensures s[1..][i].idx != idx {
        assert s[i + 1].idx != idx;
      }
      WithoutAbsent(s[1..], idx);
    }
  }

  /** Without, as a cut at the index it finds. */
  lemma CutFor(s: seq<Item>, idx: nat) returns (i: nat)
    requires Distinct(s)
    ensures i <= |s| && forall j :: 0 <= j < i ==> s[j].idx != idx
    ensures if Has(s, idx) then i < |s| && s[i].idx == idx && Without(s, idx) == s[..i] + s[i + 1..]
            else i == |s| && Without(s, idx) == s
  {
    if Has(s, idx) {
      i :| 0 <= i < |s| && s[i].idx == idx;
      WithoutAt(s, i);
    } else {
      i := |s|;
      WithoutAbsent(s, idx);
    }
  }

  lemma WithoutDistinct(s: seq<Item>, idx: nat)
    requires Distinct(s)
    ensures Distinct(Without(s, idx)) && forall j :: 0 <= j < |Without(s, idx)| ==> Without(s, idx)[j].idx != idx
  {
    var i := CutFor(s, idx);
    hide Without, Has;
  }

  lemma EncachedDistinct(s: seq<Item>, link: nat, it: Item)
    requires Distinct(s) && link > 0
    ensures Distinct(Encached(s, link, it))
    ensures |s| <= link ==> |Encached(s, link, it)| <= link
  {
    WithoutDistinct(s, it.idx);
    var i := CutFor(s, it.idx);
    hide Without, Distinct;
  }

  // ---------- runs without decache ----------

  /** What the set holds after encaching ops one after the other. */
  ghost function Run(ops: seq<Item>, link: nat): seq<Item>
    requires link > 0
  {
    if ops == [] then [] else Encached(Run(ops[..|ops| - 1], link), link, ops[|ops| - 1])
  }

  /** Everything ever encached, the last one of each index, most recent first. */
  ghost function Recent(ops: seq<Item>): seq<Item> {
    if ops == [] then [] else [ops[|ops| - 1]] + Without(Recent(ops[..|ops| - 1]), ops[|ops| - 1].idx)
  }

  ghost function Take(s: seq<Item>, n: nat): seq<Item> {
    if n < |s| then s[..n] else s
  }

  lemma {:induction false} RecentDistinct(ops: seq<Item>)
    ensures Distinct(Recent(ops))
  {
    if ops != [] {
      var front, it := ops[..|ops| - 1], ops[|ops| - 1];
      RecentDistinct(front);
      WithoutDistinct(Recent(front), it.idx);
    }
  }

  /** Bounded or not, encaching does the same to the first link items. */
  lemma EncachedTake(s: seq<Item>, link: nat, it: Item)
    requires Distinct(s) && link > 0
    ensures Encached(Take(s, link), link, it) == Take([it] + Without(s, it.idx), link)
  {
    var t := Take(s, link);
    var i := CutFor(s, it.idx);
    var k := CutFor(t, it.idx);
    assert i < |t| ==> t[i].idx == it.idx;
    assert k < |t| ==> s[k].idx == it.idx;
    assert Has(t, it.idx) <==> k < |t|;
    assert Has(s, it.idx) <==> i < |s|;
    hide Without, Distinct, Has;
    CutTake(s, link, it, i);
  }

  /** The list with the item at i left out, if there is one, and it put in front. */
  ghost function Moved(s: seq<Item>, i: nat, it: Item): seq<Item>
    requires i <= |s|
  {
    [it] + if i < |s| then s[..i] + s[i + 1..] else s
  }

  lemma CutTake(s: seq<Item>, link: nat, it: Item, i: nat)
    requires link > 0 && i <= |s|
    ensures var t := Take(s, link);
      Take(Moved(s, i, it), link) ==
        if i < |t| then Moved(t, i, it) else if |t| < link then [it] + t else [it] + t[..link - 1]
  {
    var m := Moved(s, i, it);
    if link < |s| {
      if i < link {
        assert m[..link] == [it] + (s[..link][..i] + s[..link][i + 1..]);
      } else {
        assert m[..link] == [it] + s[..link][..link - 1];
      }
    } else if i == |s| == link {
      assert m[..link] == [it] + s[..link - 1];
    }
  }

  /** The set always holds the link most recently encached items. */
  lemma {:induction false} RunIsRecent(ops: seq<Item>, link: nat)
    requires link > 0
    ensures Run(ops, link) == Take(Recent(ops), link)
  {
    if ops != [] {
      var front, it := ops[..|ops| - 1], ops[|ops| - 1];
      RunIsRecent(front, link);
      RecentDistinct(front);
      EncachedTake(Recent(front), link, it);
    }
  }

  ghost function Indices(s: seq<Item>): set<nat> {
    if s == [] then {} else {s[0].idx} + Indices(s[1..])
  }

  lemma {:induction false} IndicesJoin(a: seq<Item>, b: seq<Item>)
    ensures Indices(a + b) == Indices(a) + Indices(b)
  {
    if a == [] {
      assert a + b == b;
    } else {
      assert (a + b)[1..] == a[1..] + b;
      IndicesJoin(a[1..], b);
    }
  }

  lemma {:induction false} IndicesHas(s: seq<Item>, idx: nat)
    ensures idx in Indices(s) <==> exists i :: 0 <= i < |s| && s[i].idx == idx
  {
    if s != [] {
      IndicesHas(s[1..], idx);
      if idx in Indices(s[1..]) {
        var i :| 0 <= i < |s[1..]| && s[1..][i].idx == idx;
        assert s[i + 1].idx == idx;
      }
      if exists i :: 1 <= i < |s| && s[i].idx == idx {
        var i :| 1 <= i < |s| && s[i].idx == idx;
        assert s[1..][i - 1].idx == idx;
      }
    }
  }

  lemma {:induction false} IndicesSize(s: seq<Item>)
    requires Distinct(s)
    ensures |Indices(s)| == |s|
  {
    if s != [] {
      IndicesSize(s[1..]);
      IndicesHas(s[1..], s[0].idx);
    }
  }

  /** ops[p] is at position i of the recency list, behind exactly the indices encached after it. */
  ghost predicate At(ops: seq<Item>, p: nat, i: nat) {
    p < |ops| && i < |Recent(ops)| && Recent(ops)[i] == ops[p] && Indices(Recent(ops)[..i]) == Indices(ops[p + 1..])
  }

  /** Moving another item to the front. */
  lemma Shifted(r: seq<Item>, j: nat, it: Item) returns (i: nat)
    requires Distinct(r) && j < |r| && r[j].idx != it.idx
    ensures var r' := [it] + Without(r, it.idx);
      i < |r'| && r'[i] == r[j] && Indices(r'[..i]) == Indices(r[..j]) + {it.idx}
  {
    var k := CutFor(r, it.idx);
    var w := Without(r, it.idx);
    hide Without, Has, Distinct, Indices;
    i := if k < j then j else j + 1;
    assert ([it] + w)[..i] == [it] + w[..i - 1];
    IndicesJoin([it], w[..i - 1]);
    IndicesOne(it);
    if k < j {
      CutBefore(r, k, j);
      IndicesOne(r[k]);
    } else {
      assert w[..i - 1] == r[..j];
    }
  }

  lemma IndicesOne(it: Item)
    ensures Indices([it]) == {it.idx}
  {
    assert |[it][1..]| == 0;
  }

  /** The items before position j, with the one at k left out. */
  lemma CutBefore(r: seq<Item>, k: nat, j: nat)
    requires k < j < |r|
    ensures var w := r[..k] + r[k + 1..];
      w[..j - 1] == r[..k] + r[k + 1..j] && Indices(r[..j]) == Indices(w[..j - 1]) + Indices([r[k]])
  {
    hide Indices;
    assert r[..j] == (r[..k] + [r[k]]) + r[k + 1..j];
    IndicesJoin(r[..k] + [r[k]], r[k + 1..j]);
    IndicesJoin(r[..k], [r[k]]);
    IndicesJoin(r[..k], r[k + 1..j]);
  }

  lemma RecentLast(ops: seq<Item>)
    requires ops != []
    ensures var n := |ops| - 1; Recent(ops) == [ops[n]] + Without(Recent(ops[..n]), ops[n].idx)
  {
  }

  /** What is encached after p, one more item included. */
  lemma IndicesAfter(ops: seq<Item>, p: nat)
    requires p < |ops| - 1
    ensures var n := |ops| - 1;
      Indices(ops[p + 1..]) == Indices(ops[..n][p + 1..]) + {ops[n].idx}
  {
    var n := |ops| - 1;
    assert ops[p + 1..] == ops[..n][p + 1..] + [ops[n]];
    IndicesJoin(ops[..n][p + 1..], [ops[n]]);
    IndicesOne(ops[n]);
  }

  lemma AtMore(ops: seq<Item>, p: nat, j: nat) returns (i: nat)
    requires p < |ops| - 1 && At(ops[..|ops| - 1], p, j) && ops[p].idx != ops[|ops| - 1].idx
    ensures At(ops, p, i)
  {
    IndicesAfter(ops, p);
    RecentLast(ops);
    RecentDistinct(ops[..|ops| - 1]);
    hide Indices, Recent, Without, Distinct;
    i := Shifted(Recent(ops[..|ops| - 1]), j, ops[|ops| - 1]);
  }

  lemma {:induction false} Position(ops: seq<Item>, p: nat) returns (i: nat)
    requires p < |ops| && ops[p].idx !in Indices(ops[p + 1..])
    ensures At(ops, p, i)
    decreases |ops|
  {
    if p == |ops| - 1 {
      return 0;
    }
    hide At, Indices;
    IndicesAfter(ops, p);
    var j := Position(ops[..|ops| - 1], p);
    i := AtMore(ops, p, j);
  }

  /** An index that was encached hits, with the data last encached for it, exactly if fewer than link
      other indices were encached since. */
  lemma Hits(ops: seq<Item>, link: nat, p: nat)
    requires link > 0 && p < |ops| && ops[p].idx !in Indices(ops[p + 1..])
    ensures Has(Run(ops, link), ops[p].idx) <==> |Indices(ops[p + 1..])| < link
    ensures forall i :: 0 <= i < |Run(ops, link)| && Run(ops, link)[i].idx == ops[p].idx ==> Run(ops, link)[i] == ops[p]
  {
    var i := Position(ops, p);
    var r := Recent(ops);
    RecentDistinct(ops);
    IndicesSize(r[..i]);
    RunIsRecent(ops, link);
    var t := Take(r, link);
    assert i < link ==> t[i].idx == ops[p].idx;
  }

  /** An index that was never encached does not hit. */
  lemma {:induction false} Misses(ops: seq<Item>, link: nat, idx: nat)
    requires link > 0 && idx !in Indices(ops)
    ensures !Has(Run(ops, link), idx)
  {
    RunIsRecent(ops, link);
    RecentIndices(ops, idx);
    IndicesHas(Recent(ops), idx);
  }

  lemma {:induction false} RecentIndices(ops: seq<Item>, idx: nat)
    requires idx !in Indices(ops)
    ensures idx !in Indices(Recent(ops))
  {
    if ops != [] {
      var front, it := ops[..|ops| - 1], ops[|ops| - 1];
      assert ops == front + [it];
      IndicesJoin(front, [it]);
      RecentIndices(front, idx);
      RecentDistinct(front);
      var i := CutFor(Recent(front), it.idx);
      IndicesHas(Recent(front), idx);
      IndicesHas(Without(Recent(front), it.idx), idx);
      IndicesJoin([it], Without(Recent(front), it.idx));
    }
  }
}
