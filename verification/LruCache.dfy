/** The set-associative cache of stat/base-cache.c: in each set a used list and a free list are threaded
    through a fixed array of entries. */
module LruCache {
  import opened Seqs
  import opened LruSpec

  /** struct cache_entry_t */
  class Entry {
    const tag: nat
    var idx: nat
    var next: Entry?
    var prev: Entry?
    var data: seq<char>

    constructor (tag: nat)
      ensures this.tag == tag
    {
      this.tag := tag;
      idx, next, prev, data := 0, null, null, [];
    }
  }

  /** The fields of an entry, and of all entries of a set, as values. */
  datatype Cell = Cell(idx: nat, next: Entry?, prev: Entry?, data: seq<char>)

  type Mem = map<Entry, Cell>

  ghost function Snapshot(s: set<Entry>): (m: Mem)
    reads s
    ensures m.Keys == s
  {
    map e | e in s :: Cell(e.idx, e.next, e.prev, e.data)
  }

  ghost function First(s: seq<Entry>): Entry? {
    if s == [] then null else s[0]
  }

  ghost function Last(s: seq<Entry>): Entry? {
    if s == [] then null else s[|s| - 1]
  }

  ghost function NextIn(s: seq<Entry>, i: nat): Entry?
    requires i < |s|
  {
    if i + 1 < |s| then s[i + 1] else null
  }

  ghost function PrevIn(s: seq<Entry>, i: nat): Entry?
    requires i < |s|
  {
    if i > 0 then s[i - 1] else null
  }

  ghost predicate LinkAt(m: Mem, s: seq<Entry>, i: nat)
    requires i < |s|
  {
    s[i] in m && m[s[i]].next == NextIn(s, i) && m[s[i]].prev == PrevIn(s, i)
  }

  /** The entries of s are linked in this order, in both directions. */
  ghost predicate Links(m: Mem, s: seq<Entry>) {
    forall i :: 0 <= i < |s| ==> LinkAt(m, s, i)
  }

  /** The items of a list of entries. */
  ghost function Items(m: Mem, s: seq<Entry>): (r: seq<Item>)
    ensures |r| == |s| && forall i :: 0 <= i < |s| && s[i] in m ==> r[i] == Item(m[s[i]].idx, m[s[i]].data)
  {
    seq(|s|, i requires 0 <= i < |s| => if s[i] in m then Item(m[s[i]].idx, m[s[i]].data) else Item(0, []))
  }

  ghost function Cut(s: seq<Entry>, i: nat): seq<Entry>
    requires i < |s|
  {
    s[..i] + s[i + 1..]
  }

  /** What _remove_cache_entry leaves: entry e is unlinked from between its neighbours and put before f. */
  ghost predicate Unlinked(m: Mem, m': Mem, e: Entry, f: Entry?) {
    && e in m && m'.Keys == m.Keys
    && m'[e] == m[e].(next := f, prev := null)
    && (m[e].prev != null ==> m[e].prev in m && m'[m[e].prev] == m[m[e].prev].(next := m[e].next))
    && (m[e].next != null ==> m[e].next in m && m'[m[e].next] == m[m[e].next].(prev := m[e].prev))
    && (f != null ==> f in m && m'[f] == m[f].(prev := e))
    && forall x :: x in m && x != e && x != m[e].prev && x != m[e].next && x != f ==> m'[x] == m[x]
  }

  /** No entry, except for but, has another index or other data. */
  ghost predicate SameData(m: Mem, m': Mem, but: Entry?) {
    m'.Keys == m.Keys && forall x :: x in m && x != but ==> m'[x].idx == m[x].idx && m'[x].data == m[x].data
  }

  lemma SameStill(m: Mem, but: Entry?)
    ensures SameData(m, m, but)
  {
  }

  lemma SameTwice(m: Mem, m1: Mem, m2: Mem, but: Entry?)
    requires SameData(m, m1, null) && SameData(m1, m2, but)
    ensures SameData(m, m2, but)
  {
  }

  lemma UnlinkedUsed(m: Mem, m': Mem, us: seq<Entry>, i: nat, f: Entry?)
    requires NoDup(us) && Links(m, us) && i < |us| && Unlinked(m, m', us[i], f) && (f != null ==> f !in us)
    ensures Links(m', Cut(us, i))
  {
    var e, w := us[i], Cut(us, i);
    assert LinkAt(m, us, i);
    forall j | 0 <= j < |w| ensures LinkAt(m', w, j) {
      var o := if j < i then j else j + 1;
      assert w[j] == us[o] && LinkAt(m, us, o) && us[o] != e && us[o] != f;
    }
  }

  lemma UnlinkedFree(m: Mem, m': Mem, us: seq<Entry>, i: nat, fs: seq<Entry>)
    requires NoDup(fs) && Links(m, us) && Links(m, fs) && i < |us| && Unlinked(m, m', us[i], First(fs))
    requires forall x :: x in us ==> x !in fs
    ensures Links(m', [us[i]] + fs)
    ensures SameData(m, m', null)
  {
    var e, g := us[i], [us[i]] + fs;
    assert LinkAt(m, us, i);
    assert m[e].prev != null ==> m[e].prev in us;
    assert m[e].next != null ==> m[e].next in us;
    forall j | 0 <= j < |g| ensures LinkAt(m', g, j) {
      if j > 0 {
        assert g[j] == fs[j - 1] && LinkAt(m, fs, j - 1);
        assert j > 1 ==> fs[j - 1] != fs[0];
      }
    }
  }

  /** What _insert_cache_entry leaves: the first free entry e is put before h, for index idx. */
  ghost predicate Taken(m: Mem, m': Mem, e: Entry, h: Entry?, idx: nat) {
    && e in m && m'.Keys == m.Keys
    && m'[e] == m[e].(next := h, idx := idx)
    && (m[e].next != null ==> m[e].next in m && m'[m[e].next] == m[m[e].next].(prev := null))
    && (h != null ==> h in m && m'[h] == m[h].(prev := e))
    && forall x :: x in m && x != e && x != m[e].next && x != h ==> m'[x] == m[x]
  }

  lemma TakenLists(m: Mem, m': Mem, us: seq<Entry>, fs: seq<Entry>, idx: nat)
    requires NoDup(us) && NoDup(fs) && Links(m, us) && Links(m, fs) && fs != [] && forall x :: x in us ==> x !in fs
    requires Taken(m, m', fs[0], First(us), idx)
    ensures Links(m', [fs[0]] + us) && Links(m', fs[1..])
    ensures SameData(m, m', fs[0])
    ensures m'[fs[0]].idx == idx
  {
    var e, g, w := fs[0], [fs[0]] + us, fs[1..];
    assert LinkAt(m, fs, 0);
    forall j | 0 <= j < |g| ensures LinkAt(m', g, j) {
      if j > 0 {
        assert g[j] == us[j - 1] && LinkAt(m, us, j - 1) && us[j - 1] in us;
        assert j > 1 ==> us[j - 1] != us[0];
      }
    }
    forall j | 0 <= j < |w| ensures LinkAt(m', w, j) {
      assert w[j] == fs[j + 1] && LinkAt(m, fs, j + 1) && fs[j + 1] in fs && fs[j + 1] != fs[0];
      assert j > 0 ==> fs[j + 1] != fs[1];
    }
  }

  /** What the second branch of encache leaves: e, which has a predecessor, moves from its place to before h. */
  ghost predicate Fronted(m: Mem, m': Mem, e: Entry, h: Entry) {
    && e in m && m'.Keys == m.Keys && m[e].prev != null && m[e].prev in m && h in m
    && var p, n := m[e].prev, m[e].next;
    && m'[e] == m[e].(next := h, prev := null)
    && (n != null ==> n in m && m'[n] == m[n].(prev := p))
    && (if p == h then m'[h] == m[h].(next := n, prev := e)
        else m'[p] == m[p].(next := n) && m'[h] == m[h].(prev := e))
    && forall x :: x in m && x != e && x != p && x != n && x != h ==> m'[x] == m[x]
  }

  /** The first half: the neighbours of e are joined. */
  ghost predicate Joined(m: Mem, m': Mem, e: Entry) {
    && e in m && m[e].prev != null && m[e].prev in m && m'.Keys == m.Keys
    && var p, n := m[e].prev, m[e].next;
    && m'[e] == m[e] && m'[p] == m[p].(next := n) && (n != null ==> n in m && m'[n] == m[n].(prev := p))
    && forall x :: x in m && x != p && x != n ==> m'[x] == m[x]
  }

  lemma JoinPush(m: Mem, m1: Mem, m2: Mem, e: Entry, h: Entry)
    requires Joined(m, m1, e) && h in m && h != e && h != m[e].next && m[e].prev != e && m[e].next != e
    requires m2 == m1[e := m1[e].(next := h, prev := null)][h := m1[h].(prev := e)]
    ensures Fronted(m, m2, e, h)
  {
  }

  lemma FrontedList(m: Mem, m': Mem, us: seq<Entry>, i: nat)
    requires NoDup(us) && Links(m, us) && 0 < i < |us| && Fronted(m, m', us[i], us[0])
    ensures Links(m', [us[i]] + Cut(us, i))
  {
    var e, g := us[i], [us[i]] + Cut(us, i);
    assert LinkAt(m, us, i);
    forall j | 0 <= j < |g| ensures LinkAt(m', g, j) {
      if j > 0 {
        var o := if j - 1 < i then j - 1 else j;
        assert g[j] == us[o] && LinkAt(m, us, o) && us[o] != e;
        assert o > 0 ==> us[o] != us[0];
      }
    }
  }

  lemma FrontedFree(m: Mem, m': Mem, us: seq<Entry>, i: nat, fs: seq<Entry>)
    requires Links(m, us) && Links(m, fs) && 0 < i < |us| && Fronted(m, m', us[i], us[0])
    requires forall x :: x in us ==> x !in fs
    ensures Links(m', fs)
  {
    assert LinkAt(m, us, i);
    forall j | 0 <= j < |fs| ensures LinkAt(m', fs, j) {
      assert LinkAt(m, fs, j) && fs[j] in fs && fs[j] !in us;
      assert us[i - 1] in us && us[0] in us && us[i] in us && (i + 1 < |us| ==> us[i + 1] in us);
    }
  }

  /** The used and the free list share out the entries between them. */
  ghost predicate Partition(us: seq<Entry>, fs: seq<Entry>, all: set<Entry>) {
    && NoDup(us) && NoDup(fs) && (forall x :: x in us ==> x !in fs)
    && (forall x :: x in all ==> x in us || x in fs)
    && (forall x :: x in us ==> x in all) && (forall x :: x in fs ==> x in all)
  }

  lemma PartitionFree(us: seq<Entry>, fs: seq<Entry>, all: set<Entry>, i: nat)
    requires Partition(us, fs, all) && i < |us|
    ensures Partition(Cut(us, i), [us[i]] + fs, all)
  {
    var w, g := Cut(us, i), [us[i]] + fs;
    assert forall j :: 0 <= j < |w| ==> w[j] == us[if j < i then j else j + 1];
    forall x | x in us && x != us[i] ensures x in w {
      var j :| 0 <= j < |us| && us[j] == x;
      assert w[if j < i then j else j - 1] == x;
    }
    assert us[i] in g && us[i] in us;
    assert forall j :: 0 <= j < |fs| ==> g[j + 1] == fs[j];
  }

  lemma PartitionTake(us: seq<Entry>, fs: seq<Entry>, all: set<Entry>)
    requires Partition(us, fs, all) && fs != []
    ensures Partition([fs[0]] + us, fs[1..], all)
  {
    assert fs == [fs[0]] + fs[1..];
    assert fs[0] in fs;
  }

  lemma PartitionFront(us: seq<Entry>, fs: seq<Entry>, all: set<Entry>, i: nat)
    requires Partition(us, fs, all) && i < |us|
    ensures Partition([us[i]] + Cut(us, i), fs, all)
  {
    PartitionFree(us, fs, all, i);
    var w, g := Cut(us, i), [us[i]] + fs;
    assert us[i] in g && us[i] !in w;
    forall x | x in fs ensures x in g {
    }
    forall x | x in us ensures x in [us[i]] + w {
      assert x in all;
    }
  }

  /** The loop of init_cache_header and the statements around it. */
  method LinkArray(es: seq<Entry>)
    requires |es| >= 2 && NoDup(es)
    modifies es
    ensures forall j {:trigger es[j]} :: 0 <= j < |es| ==> es[j].next == NextIn(es, j) && es[j].prev == PrevIn(es, j)
  {
    var link := |es|;
    es[0].next, es[0].prev := es[1], null;
    for i := 1 to link - 1
      invariant forall j {:trigger es[j]} :: 0 <= j < i ==> es[j].next == NextIn(es, j) && es[j].prev == PrevIn(es, j)
    {
      es[i].next, es[i].prev := es[i + 1], es[i - 1];
    }
    es[link - 1].next, es[link - 1].prev := null, es[link - 2];
  }

  lemma AllFree(m: Mem, es: seq<Entry>)
    requires |es| >= 2 && NoDup(es) && m.Keys == set e | e in es
    requires forall j {:trigger es[j]} :: 0 <= j < |es| ==>
      m[es[j]].next == NextIn(es, j) && m[es[j]].prev == PrevIn(es, j)
    ensures Links(m, []) && Links(m, es) && Partition([], es, m.Keys) && Items(m, []) == [] && Distinct([])
    ensures First([]) == null && Last([]) == null && First(es) == es[0]
  {
    forall i | 0 <= i < |es| ensures LinkAt(m, es, i) {
      assert es[i] in es;
    }
  }

  /** init_cache_header on the entries: they all end up on the free list. */
  method LinkAll(es: seq<Entry>) returns (ghost m: Mem)
    requires |es| >= 2 && NoDup(es)
    modifies es
    ensures m.Keys == (set e | e in es) && m == Snapshot(m.Keys)
    ensures Links(m, []) && Links(m, es) && Partition([], es, m.Keys) && Items(m, []) == [] && Distinct([])
    ensures First([]) == null && Last([]) == null && First(es) == es[0]
  {
    LinkArray(es);
    hide Links, Partition, Items, NoDup, Distinct, First, Last;
    m := Snapshot(set e | e in es);
    forall j | 0 <= j < |es| ensures m[es[j]].next == NextIn(es, j) && m[es[j]].prev == PrevIn(es, j) {
      assert es[j] in m.Keys;
    }
    AllFree(m, es);
  }

  lemma CutItems(m: Mem, m': Mem, us: seq<Entry>, i: nat)
    requires i < |us| && Distinct(Items(m, us))
    requires forall x :: x in us ==> x in m && x in m' && m'[x].idx == m[x].idx && m'[x].data == m[x].data
    ensures Items(m', Cut(us, i)) == Without(Items(m, us), m[us[i]].idx)
  {
    var s, w := Items(m, us), Cut(us, i);
    assert us[i] in us;
    WithoutAt(s, i);
    forall j | 0 <= j < |w| ensures Items(m', w)[j] == (s[..i] + s[i + 1..])[j] {
      assert w[j] == us[if j < i then j else j + 1] && w[j] in us;
    }
  }

  lemma PartitionHas(us: seq<Entry>, fs: seq<Entry>, all: set<Entry>)
    requires Partition(us, fs, all)
    ensures NoDup(us) && forall x :: x in us ==> x in all
  {
  }

  lemma StoreLinks(m: Mem, m': Mem, e: Entry, s: seq<Entry>)
    requires Links(m, s) && e in m && m'.Keys == m.Keys
    requires forall x :: x in m ==> m'[x].next == m[x].next && m'[x].prev == m[x].prev
    ensures Links(m', s)
  {
    forall i | 0 <= i < |s| ensures LinkAt(m', s, i) {
      assert LinkAt(m, s, i);
    }
  }

  lemma HitItems(m: Mem, m': Mem, us: seq<Entry>, i: nat, it: Item, link: nat)
    requires i < |us| && link > 0 && NoDup(us) && (forall x :: x in us ==> x in m && x in m')
    requires Distinct(Items(m, us)) && m[us[i]].idx == it.idx
    requires m'[us[i]].idx == it.idx && m'[us[i]].data == it.data
    requires forall x :: x in us && x != us[i] ==> m'[x].idx == m[x].idx && m'[x].data == m[x].data
    ensures Items(m', [us[i]] + Cut(us, i)) == Encached(Items(m, us), link, it)
  {
    var s, w := Items(m, us), Items(m', [us[i]] + Cut(us, i));
    assert us[i] in us && s[i].idx == it.idx;
    WithoutAt(s, i);
    var r := [it] + (s[..i] + s[i + 1..]);
    forall j | 0 <= j < |w| ensures w[j] == r[j] {
      if j > 0 {
        var o := if j - 1 < i then j - 1 else j;
        assert us[o] in us && us[o] != us[i] && ([us[i]] + Cut(us, i))[j] == us[o];
      }
    }
  }

  lemma MissItems(m: Mem, m': Mem, us: seq<Entry>, e: Entry, it: Item, link: nat)
    requires link > 0 && |us| <= link && (forall x :: x in us ==> x in m && x in m') && e in m'
    requires !Has(Items(m, us), it.idx) && m'[e].idx == it.idx && m'[e].data == it.data
    requires var r := if |us| == link then us[..link - 1] else us;
      e !in r && forall x :: x in r ==> m'[x].idx == m[x].idx && m'[x].data == m[x].data
    ensures Items(m', [e] + (if |us| == link then us[..link - 1] else us)) == Encached(Items(m, us), link, it)
  {
    hide Has, NoDup;
    var r := if |us| == link then us[..link - 1] else us;
    ItemsFront(m, m', us, e, |r|);
    assert ([e] + r)[0] == e && [e] + us[..|r|] == [e] + r;
    assert Items(m, us)[..|us|] == Items(m, us);
  }

  /** The items of the first n entries, with another one put before them. */
  lemma ItemsFront(m: Mem, m': Mem, us: seq<Entry>, e: Entry, n: nat)
    requires n <= |us| && e in m' && forall x :: x in us[..n] ==> x in m && x in m'
    requires forall x :: x in us[..n] ==> m'[x].idx == m[x].idx && m'[x].data == m[x].data
    ensures Items(m', [e] + us[..n]) == [Item(m'[e].idx, m'[e].data)] + Items(m, us)[..n]
  {
    var w, r := Items(m', [e] + us[..n]), [Item(m'[e].idx, m'[e].data)] + Items(m, us)[..n];
    forall j | 0 <= j < |w| ensures w[j] == r[j] {
      if j > 0 {
        assert ([e] + us[..n])[j] == us[j - 1] && us[..n][j - 1] in us[..n];
      }
    }
  }

  lemma FreeHead(m: Mem, us: seq<Entry>, fs: seq<Entry>)
    requires Partition(us, fs, m.Keys) && Links(m, us) && Links(m, fs) && fs != []
    ensures var c := m[fs[0]];
      && fs[0] in m && c.next == First(fs[1..]) && c.next != fs[0] && (c.next != null ==> c.next in m)
      && (us != [] ==> us[0] in m && us[0] != fs[0] && us[0] != c.next)
    ensures NoDup(us) && NoDup(fs) && forall x :: x in us ==> x !in fs
  {
    assert LinkAt(m, fs, 0);
    assert fs[0] in fs;
    assert us != [] ==> us[0] in us;
  }

  lemma FrontIsFirst(us: seq<Entry>)
    requires us != []
    ensures [us[0]] + Cut(us, 0) == us
  {
  }

  lemma CutEnds(us: seq<Entry>, i: nat)
    requires i < |us|
    ensures |Cut(us, i)| == |us| - 1
    ensures First(Cut(us, i)) == if PrevIn(us, i) == null then NextIn(us, i) else First(us)
    ensures Last(Cut(us, i)) == if NextIn(us, i) == null then PrevIn(us, i) else Last(us)
  {
  }

  lemma FirstOf(e: Entry, s: seq<Entry>)
    ensures First([e] + s) == e && Last([e] + s) == if s == [] then e else Last(s)
    ensures First(s) == null <==> s == []
    ensures Last(s) == null <==> s == []
  {
  }

  /** The neighbours of a used entry. */
  lemma NeighboursOf(m: Mem, us: seq<Entry>, fs: seq<Entry>, i: nat)
    requires Partition(us, fs, m.Keys) && Links(m, us) && i < |us|
    ensures var c := m[us[i]];
      && c.prev == PrevIn(us, i) && c.next == NextIn(us, i) && c.prev != us[i] && c.next != us[i]
      && (c.prev != null ==> c.prev in m && c.prev != c.next && c.prev in us)
      && (c.next != null ==> c.next in m && c.next in us)
      && us[i] in m && us[i] in us && us[i] !in fs && us[0] in m && c.next != us[0]
      && var f := First(fs); (f != null ==> f in m && f != us[i] && f != c.prev && f != c.next && f !in us)
    ensures NoDup(us) && NoDup(fs) && forall x :: x in us ==> x !in fs
  {
    assert LinkAt(m, us, i);
    assert us[i] in us && us[0] in us;
  }

  /** The three pointers of struct cache_header_t. */
  datatype Ends = Ends(used: Entry?, tail: Entry?, free: Entry?)

  /** The links thread the used and the free list through all n entries, and the pointers lead to their ends. */
  ghost predicate Threads(m: Mem, us: seq<Entry>, fs: seq<Entry>, p: Ends, n: nat) {
    && Partition(us, fs, m.Keys) && |us| + |fs| == n && Links(m, us) && Links(m, fs)
    && p == Ends(First(us), Last(us), First(fs))
  }

  /** _remove_cache_entry leaves the lists threaded. */
  lemma RemoveThreads(m: Mem, m': Mem, us: seq<Entry>, fs: seq<Entry>, p: Ends, n: nat, i: nat)
    requires Threads(m, us, fs, p, n) && i < |us| && Unlinked(m, m', us[i], p.free) && m'.Keys == m.Keys
    ensures var c := m[us[i]];
      Threads(m', Cut(us, i), [us[i]] + fs,
              Ends(if c.prev == null then c.next else p.used, if c.next == null then c.prev else p.tail, us[i]), n)
    ensures SameData(m, m', null)
  {
    hide Links, Partition, Unlinked, Cut, First, Last, NextIn, PrevIn;
    NeighboursOf(m, us, fs, i);
    CutEnds(us, i);
    FirstOf(us[i], fs);
    UnlinkedUsed(m, m', us, i, p.free);
    UnlinkedFree(m, m', us, i, fs);
    PartitionFree(us, fs, m.Keys, i);
  }

  /** _insert_cache_entry leaves them threaded. */
  lemma InsertThreads(m: Mem, m': Mem, us: seq<Entry>, fs: seq<Entry>, p: Ends, n: nat, idx: nat)
    requires Threads(m, us, fs, p, n) && fs != [] && Taken(m, m', fs[0], p.used, idx) && m'.Keys == m.Keys
    ensures Threads(m', [fs[0]] + us, fs[1..], Ends(fs[0], if p.used == null then fs[0] else p.tail, m[fs[0]].next), n)
    ensures SameData(m, m', fs[0])
    ensures m'[fs[0]].idx == idx
  {
    hide Links, Partition, Taken, NextIn, PrevIn;
    FreeHead(m, us, fs);
    FirstOf(fs[0], us);
    TakenLists(m, m', us, fs, idx);
    PartitionTake(us, fs, m.Keys);
  }

  /** Moving an entry to the front leaves them threaded. */
  lemma FrontThreads(m: Mem, m': Mem, us: seq<Entry>, fs: seq<Entry>, p: Ends, n: nat, i: nat)
    requires Threads(m, us, fs, p, n) && 0 < i < |us| && Fronted(m, m', us[i], us[0]) && m'.Keys == m.Keys
    ensures var c := m[us[i]];
      Threads(m', [us[i]] + Cut(us, i), fs, Ends(us[i], if c.next == null then c.prev else p.tail, p.free), n)
    ensures SameData(m, m', null)
  {
    FrontedData(m, m', us[i], us[0]);
    hide Links, Partition, Cut, Last, NextIn, Fronted;
    NeighboursOf(m, us, fs, i);
    CutEnds(us, i);
    FirstOf(us[i], Cut(us, i));
    FrontedList(m, m', us, i);
    FrontedFree(m, m', us, i, fs);
    PartitionFront(us, fs, m.Keys, i);
  }

  lemma FrontedData(m: Mem, m': Mem, e: Entry, h: Entry)
    requires Fronted(m, m', e, h)
    ensures SameData(m, m', null)
  {
  }

  lemma ThreadsFit(m: Mem, us: seq<Entry>, fs: seq<Entry>, p: Ends, n: nat)
    requires Threads(m, us, fs, p, n)
    ensures |us| <= n && NoDup(us) && (forall x :: x in us ==> x in m)
    ensures us != [] ==> p.used == us[0] && us[0] in m
  {
  }

  /** The items after the data of the entry in front has been stored: a new one ... */
  lemma MissStored(m: Mem, m': Mem, us: seq<Entry>, e: Entry, it: Item, link: nat)
    requires link > 0 && |us| <= link && (forall x :: x in us ==> x in m) && e in m' && SameData(m, m', e)
    requires !Has(Items(m, us), it.idx) && m'[e].idx == it.idx
    requires e !in (if |us| == link then us[..link - 1] else us)
    ensures Items(m'[e := m'[e].(data := it.data)], [e] + (if |us| == link then us[..link - 1] else us))
         == Encached(Items(m, us), link, it)
  {
    hide Items, Encached, Has;
    MissItems(m, m'[e := m'[e].(data := it.data)], us, e, it, link);
  }

  /** ... or one that moved. */
  lemma HitStored(m: Mem, m': Mem, us: seq<Entry>, i: nat, it: Item, link: nat)
    requires i < |us| && link > 0 && NoDup(us) && (forall x :: x in us ==> x in m) && SameData(m, m', null)
    requires Distinct(Items(m, us)) && m[us[i]].idx == it.idx
    ensures us[i] in m' && m'[us[i]].idx == it.idx
    ensures Items(m'[us[i] := m'[us[i]].(data := it.data)], [us[i]] + Cut(us, i)) == Encached(Items(m, us), link, it)
  {
    hide Items, Encached, Distinct, Cut;
    assert us[i] in us;
    HitItems(m, m'[us[i] := m'[us[i]].(data := it.data)], us, i, it, link);
  }

  /** What an assignment through a pointer that may be null leaves. */
  ghost function WithNext(m: Mem, e: Entry?, v: Entry?): (m': Mem)
    ensures m'.Keys == m.Keys
  {
    if e != null && e in m then m[e := m[e].(next := v)] else m
  }

  ghost function WithPrev(m: Mem, e: Entry?, v: Entry?): (m': Mem)
    ensures m'.Keys == m.Keys
  {
    if e != null && e in m then m[e := m[e].(prev := v)] else m
  }

  ghost function WithIdx(m: Mem, e: Entry, idx: nat): (m': Mem)
    ensures m'.Keys == m.Keys
  {
    if e in m then m[e := m[e].(idx := idx)] else m
  }

  /** The neighbours of e joined. */
  ghost function JoinedAround(m: Mem, e: Entry): (m': Mem)
    ensures m'.Keys == m.Keys
  {
    if e in m then WithPrev(WithNext(m, m[e].prev, m[e].next), m[e].next, m[e].prev) else m
  }

  ghost predicate CanJoin(m: Mem, e: Entry) {
    && e in m && m[e].next != e && (m[e].next != null ==> m[e].next in m)
    && (m[e].prev != null ==> m[e].prev in m && m[e].prev != e && m[e].prev != m[e].next)
  }

  ghost predicate CanRemove(m: Mem, e: Entry, f: Entry?) {
    CanJoin(m, e) && (f != null ==> f in m && f != e && f != m[e].prev && f != m[e].next)
  }

  ghost predicate CanTake(m: Mem, e: Entry, h: Entry?) {
    && e in m && m[e].next != e && (m[e].next != null ==> m[e].next in m)
    && (h != null ==> h in m && h != e && h != m[e].next)
  }

  lemma RemoveReady(m: Mem, us: seq<Entry>, fs: seq<Entry>, p: Ends, n: nat, i: nat)
    requires Threads(m, us, fs, p, n) && i < |us|
    ensures CanRemove(m, us[i], p.free)
    ensures p.used == us[0] && us[0] in m && us[0] != m[us[i]].next && (m[us[i]].prev == null <==> i == 0)
    ensures i > 0 ==> us[0] != us[i]
  {
    hide Links, Partition, NextIn, Last;
    NeighboursOf(m, us, fs, i);
  }

  lemma InsertReady(m: Mem, us: seq<Entry>, fs: seq<Entry>, p: Ends, n: nat)
    requires Threads(m, us, fs, p, n)
    ensures p.free == (if fs == [] then null else fs[0])
    ensures fs != [] ==> CanTake(m, fs[0], p.used)
  {
    hide Links, Partition, Last;
    if fs != [] {
      FreeHead(m, us, fs);
    }
  }

  lemma UnlinkedBy(m: Mem, e: Entry, f: Entry?)
    requires CanRemove(m, e, f)
    ensures Unlinked(m, WithNext(WithPrev(WithPrev(JoinedAround(m, e), f, e), e, null), e, f), e, f)
  {
  }

  lemma TakenBy(m: Mem, e: Entry, h: Entry?, idx: nat)
    requires CanTake(m, e, h)
    ensures Taken(m, WithIdx(WithPrev(WithNext(WithPrev(m, m[e].next, null), e, h), h, e), e, idx), e, h, idx)
  {
  }

  lemma JoinedBy(m: Mem, e: Entry)
    requires CanJoin(m, e) && m[e].prev != null
    ensures Joined(m, JoinedAround(m, e), e)
  {
  }

  /** struct cache_header_t: one set of the cache. */
  class CacheSet {
    const ch: seq<Entry>
    var used: Entry?
    var tail: Entry?
    var free: Entry?
    ghost var mem: Mem           // what the entries hold
    ghost var useds: seq<Entry>  // the used list, most recently encached first
    ghost var frees: seq<Entry>

    /** init_cache_header: all entries are free, in the order of the array. */
    constructor (es: seq<Entry>)
      requires |es| >= 2 && NoDup(es)
      modifies es
      ensures Valid() && ch == es && Contents() == [] && mem.Keys == (set e | e in es)
    {
      ch := es;
      used, tail, free := null, null, es[0];
      useds, frees := [], es;
      new;
      ghost var m := LinkAll(es);
      hide Links, Partition, Items, NoDup, Distinct, First, Last, Snapshot;
      mem := m;
    }

    ghost predicate Synced()
      reads this`mem, mem.Keys
    {
      mem == Snapshot(mem.Keys)
    }

    /** The links thread the used and the free list through all entries of the array. */
    ghost predicate Threaded()
      reads this
    {
      Threads(mem, useds, frees, Ends(used, tail, free), |ch|)
    }

    ghost predicate Valid()
      reads this, mem.Keys
    {
      Synced() && Threaded() && |ch| >= 2 && Distinct(Contents())
    }

    /** The set as a list of items, most recently encached first. */
    ghost function Contents(): seq<Item>
      reads this
    {
      Items(mem, useds)
    }

    lemma EntrySynced(e: Entry)
      requires Synced() && e in mem
      ensures mem[e] == Cell(e.idx, e.next, e.prev, e.data)
    {
    }

    /** The assignment to the next field of e, if there is an e; and the same for prev. */
    method SetNext(e: Entry?, v: Entry?)
      requires Synced() && (e != null ==> e in mem)
      modifies this`mem, e
      ensures Synced() && mem == WithNext(old(mem), e, v)
    {
      if e != null {
        e.next := v;
        mem := mem[e := mem[e].(next := v)];
      }
    }

    method SetPrev(e: Entry?, v: Entry?)
      requires Synced() && (e != null ==> e in mem)
      modifies this`mem, e
      ensures Synced() && mem == WithPrev(old(mem), e, v)
    {
      if e != null {
        e.prev := v;
        mem := mem[e := mem[e].(prev := v)];
      }
    }

    method SetIdx(e: Entry, idx: nat)
      requires Synced() && e in mem
      modifies this`mem, e
      ensures Synced() && mem == WithIdx(old(mem), e, idx)
    {
      e.idx := idx;
      mem := mem[e := mem[e].(idx := idx)];
    }

    /** The writes of _remove_cache_entry and of encache that join the neighbours of an entry. */
    method JoinWrites(entry: Entry)
      requires Synced() && CanJoin(mem, entry)
      modifies this`used, this`tail, this`mem, mem.Keys
      ensures Synced() && mem == JoinedAround(old(mem), entry)
      ensures used == (if old(mem)[entry].prev == null then old(mem)[entry].next else old(used))
      ensures tail == (if old(mem)[entry].next == null then old(mem)[entry].prev else old(tail))
    {
      EntrySynced(entry);
      hide Synced, WithNext, WithPrev;
      var prev, next := entry.prev, entry.next;
      SetNext(prev, next);
      SetPrev(next, prev);
      if prev == null {
        used := next;
      }
      if next == null {
        tail := prev;
      }
    }

    /** The writes of _remove_cache_entry that put an entry in front of the free list. */
    method FreeWrites(entry: Entry)
      requires Synced() && entry in mem && (free != null ==> free in mem && free != entry)
      modifies this`free, this`mem, mem.Keys
      ensures Synced() && mem == WithNext(WithPrev(WithPrev(old(mem), old(free), entry), entry, null), entry, old(free))
      ensures free == entry
    {
      hide Synced, WithNext, WithPrev;
      SetPrev(free, entry);
      SetPrev(entry, null);
      SetNext(entry, free);
      free := entry;
    }

    /** The writes of _remove_cache_entry. */
    method RemoveWrites(entry: Entry)
      requires Synced() && CanRemove(mem, entry, free)
      modifies this`used, this`tail, this`free, this`mem, mem.Keys
      ensures Synced() && Unlinked(old(mem), mem, entry, old(free)) && free == entry && mem.Keys == old(mem.Keys)
      ensures used == (if old(mem)[entry].prev == null then old(mem)[entry].next else old(used))
      ensures tail == (if old(mem)[entry].next == null then old(mem)[entry].prev else old(tail))
    {
      EntrySynced(entry);
      UnlinkedBy(mem, entry, free);
      hide Synced, Unlinked, JoinedAround, WithNext, WithPrev;
      JoinWrites(entry);
      FreeWrites(entry);
    }

    /** _remove_cache_entry */
    method RemoveEntry(entry: Entry, ghost i: nat)
      requires Synced() && Threaded() && i < |useds| && useds[i] == entry
      modifies this, mem.Keys
      ensures Synced() && Threaded() && mem.Keys == old(mem.Keys)
      ensures useds == Cut(old(useds), i) && frees == [entry] + old(frees)
      ensures SameData(old(mem), mem, null)
    {
      hide Snapshot, Synced, Threads, Unlinked, SameData, Cut, CanRemove;
      ghost var ends := Ends(used, tail, free);
      RemoveReady(mem, useds, frees, ends, |ch|, i);
      RemoveWrites(entry);
      RemoveThreads(old(mem), mem, useds, frees, ends, |ch|, i);
      useds, frees := Cut(useds, i), [entry] + frees;
    }

    /** The writes of _insert_cache_entry that take the first entry off the free list. */
    method TakeWrites()
      requires Synced() && free != null && free in mem && free.next != free && (free.next != null ==> free.next in mem)
      modifies this`free, this`mem, mem.Keys
      ensures Synced() && mem == WithPrev(old(mem), old(free.next), null) && free == old(free.next)
    {
      EntrySynced(free);
      hide Synced, WithPrev;
      free := free.next;
      SetPrev(free, null);
    }

    /** The writes of _insert_cache_entry that put it in front of the used list. */
    method UseWrites(entry: Entry, idx: nat)
      requires Synced() && entry in mem && (used != null ==> used in mem && used != entry)
      modifies this`used, this`tail, this`mem, mem.Keys
      ensures Synced() && used == entry
      ensures mem == WithIdx(WithPrev(WithNext(old(mem), entry, old(used)), old(used), entry), entry, idx)
      ensures tail == (if old(used) == null then entry else old(tail))
    {
      hide Synced, WithNext, WithPrev, WithIdx;
      SetNext(entry, used);
      SetPrev(used, entry);
      SetIdx(entry, idx);
      if used == null {
        tail := entry;
      }
      used := entry;
    }

    /** The writes of _insert_cache_entry. */
    method InsertWrites(entry: Entry, idx: nat)
      requires Synced() && free == entry && CanTake(mem, entry, used)
      modifies this`used, this`tail, this`free, this`mem, mem.Keys
      ensures Synced() && Taken(old(mem), mem, entry, old(used), idx) && mem.Keys == old(mem.Keys)
      ensures used == entry && free == old(mem)[entry].next && tail == (if old(used) == null then entry else old(tail))
    {
      EntrySynced(entry);
      TakenBy(mem, entry, used, idx);
      hide Synced, Taken, WithIdx, WithNext, WithPrev;
      TakeWrites();
      UseWrites(entry, idx);
    }

    /** _insert_cache_entry */
    method InsertEntry(idx: nat) returns (entry: Entry?)
      requires Synced() && Threaded()
      modifies this, mem.Keys
      ensures Synced() && Threaded() && mem.Keys == old(mem.Keys)
      ensures old(frees) == [] ==> entry == null && mem == old(mem) && useds == old(useds)
      ensures old(frees) != [] ==> entry == old(frees)[0] && useds == [entry] + old(useds) && mem[entry].idx == idx
      ensures SameData(old(mem), mem, entry)
    {
      hide Snapshot, Synced, Threads, Taken, SameData, CanTake;
      ghost var ends := Ends(used, tail, free);
      InsertReady(mem, useds, frees, ends, |ch|);
      entry := free;
      SameStill(mem, entry);
      if free == null {
        return;
      }
      InsertWrites(entry, idx);
      InsertThreads(old(mem), mem, useds, frees, ends, |ch|, idx);
      useds, frees := [entry] + useds, frees[1..];
    }

    /** The writes of encache that put an entry in front. */
    method PushWrites(entry: Entry)
      requires Synced() && entry in mem && used != null && used in mem && used != entry
      modifies this`used, this`mem, mem.Keys
      ensures Synced() && used == entry
      ensures mem == old(mem)[entry := old(mem)[entry].(next := old(used), prev := null)]
                             [old(used) := old(mem)[old(used)].(prev := entry)]
    {
      used.prev := entry;
      entry.next := used;
      entry.prev := null;
      mem := mem[entry := mem[entry].(next := used, prev := null)][used := mem[used].(prev := entry)];
      used := entry;
    }

    /** The branch of encache for an index that is already there. */
    method FrontEntry(entry: Entry, ghost i: nat)
      requires Synced() && Threaded() && i < |useds| && useds[i] == entry
      modifies this, mem.Keys
      ensures Synced() && Threaded() && mem.Keys == old(mem.Keys)
      ensures useds == [entry] + Cut(old(useds), i)
      ensures SameData(old(mem), mem, null)
    {
      hide Snapshot, Synced, Threads, Joined, Fronted, JoinedAround, SameData, Cut;
      ghost var ends := Ends(used, tail, free);
      RemoveReady(mem, useds, frees, ends, |ch|, i);
      EntrySynced(entry);
      if entry.prev != null {
        JoinedBy(mem, entry);
        JoinWrites(entry);
        ghost var joined := mem;
        PushWrites(entry);
        JoinPush(old(mem), joined, mem, entry, useds[0]);
        FrontThreads(old(mem), mem, useds, frees, ends, |ch|, i);
        useds := [entry] + Cut(useds, i);
      } else {
        SameStill(mem, null);
        FrontIsFirst(useds);
      }
    }

    /** lookup_cache within one set */
    method Lookup(idx: nat) returns (entry: Entry?, ghost i: nat)
      requires Valid()
      ensures if Has(Contents(), idx)
              then i < |useds| && entry == useds[i] && entry.idx == idx && Contents()[i].idx == idx
              else entry == null
      ensures entry == null <==> !Has(Contents(), idx)
      ensures entry != null ==> entry in useds && entry.idx == idx
    {
      entry, i := used, 0;
      while entry != null
        invariant i <= |useds| && entry == (if i < |useds| then useds[i] else null)
        invariant forall j :: 0 <= j < i ==> Contents()[j].idx != idx
        decreases |useds| - i
      {
        assert LinkAt(mem, useds, i);
        if entry.idx == idx {
          return;
        }
        entry, i := entry.next, i + 1;
      }
    }

    /** The memcpy at the end of encache, into the entry that is now in front. */
    method StoreData(entry: Entry, d: seq<char>, ghost s: seq<Item>)
      requires Synced() && Threaded() && |ch| >= 2 && useds != [] && useds[0] == entry && entry in mem
      requires s == Items(mem[entry := mem[entry].(data := d)], useds) && Distinct(s)
      modifies this`mem, entry`data
      ensures Valid() && mem.Keys == old(mem.Keys) && Contents() == s
      ensures entry.data == d && entry.idx == old(mem)[entry].idx
    {
      hide Items, Partition, Links, Distinct;
      entry.data := d;
      mem := mem[entry := mem[entry].(data := d)];
      StoreLinks(old(mem), mem, entry, useds);
      StoreLinks(old(mem), mem, entry, frees);
    }

    /** The part of encache before the copy, for an index that is not there. */
    method Obtain(idx: nat) returns (entry: Entry, thrash: bool)
      requires Valid() && !Has(Contents(), idx)
      modifies this, mem.Keys
      ensures Synced() && Threaded() && mem.Keys == old(mem.Keys)
      ensures thrash <==> |old(useds)| == |ch|
      ensures useds == [entry] + (if thrash then old(useds)[..|ch| - 1] else old(useds))
      ensures mem[entry].idx == idx && entry !in useds[1..]
      ensures SameData(old(mem), mem, entry)
    {
      thrash := free == null;
      if thrash {
        RemoveEntry(tail, |useds| - 1);
        assert useds == old(useds)[..|ch| - 1];
      }
      ghost var m1 := mem;
      var e := InsertEntry(idx);
      entry := e;
      SameTwice(old(mem), m1, mem, entry);
    }

    /** encache of an index that is not there. */
    method EncacheNew(idx: nat, d: seq<char>) returns (entry: Entry, thrash: bool)
      requires Valid() && !Has(Contents(), idx)
      modifies this, mem.Keys
      ensures Valid() && mem.Keys == old(mem.Keys)
      ensures Contents() == Encached(old(Contents()), |ch|, Item(idx, d))
      ensures entry == used && entry.idx == idx && entry.data == d
      ensures thrash <==> |old(Contents())| == |ch|
    {
      hide Encached, Distinct, Has, Snapshot, Threads, SameData, Items;
      ghost var s := Encached(Contents(), |ch|, Item(idx, d));
      EncachedDistinct(Contents(), |ch|, Item(idx, d));
      ThreadsFit(mem, useds, frees, Ends(used, tail, free), |ch|);
      entry, thrash := Obtain(idx);
      ThreadsFit(mem, useds, frees, Ends(used, tail, free), |ch|);
      MissStored(old(mem), mem, old(useds), entry, Item(idx, d), |ch|);
      StoreData(entry, d, s);
    }

    /** encache of an index that is there. */
    method EncacheOld(entry: Entry, ghost i: nat, d: seq<char>)
      requires Valid() && i < |useds| && entry == useds[i]
      modifies this, mem.Keys
      ensures Valid() && mem.Keys == old(mem.Keys)
      ensures Contents() == Encached(old(Contents()), |ch|, Item(old(entry.idx), d))
      ensures entry == used && entry.idx == old(entry.idx) && entry.data == d
    {
      hide Encached, Distinct, Snapshot, Threads, SameData, Items, Cut;
      ghost var it := Item(entry.idx, d);
      ghost var s := Encached(Contents(), |ch|, it);
      EncachedDistinct(Contents(), |ch|, it);
      ThreadsFit(mem, useds, frees, Ends(used, tail, free), |ch|);
      assert entry in useds;
      EntrySynced(entry);
      FrontEntry(entry, i);
      ThreadsFit(mem, useds, frees, Ends(used, tail, free), |ch|);
      HitStored(old(mem), mem, old(useds), i, it, |ch|);
      StoreData(entry, d, s);
    }

    /** encache within one set: the item goes to the front. */
    method Encache(idx: nat, buf: seq<char>, entrySize: nat) returns (entry: Entry, thrash: bool)
      requires Valid() && entrySize <= |buf|
      modifies this, mem.Keys
      ensures Valid() && mem.Keys == old(mem.Keys)
      ensures Contents() == Encached(old(Contents()), |ch|, Item(idx, buf[..entrySize]))
      ensures entry == used && entry.idx == idx && entry.data == buf[..entrySize]
      ensures thrash <==> !Has(old(Contents()), idx) && |old(Contents())| == |ch|
    {
      hide Encached;
      var found;
      ghost var i;
      found, i := Lookup(idx);
      if found == null {
        entry, thrash := EncacheNew(idx, buf[..entrySize]);
      } else {
        entry, thrash := found, false;
        EncacheOld(entry, i, buf[..entrySize]);
      }
    }

    /** decache within one set: the item goes, and its entry is the first to be used again. */
    method Decache(idx: nat) returns (entry: Entry?)
      requires Valid()
      modifies this, mem.Keys
      ensures Valid() && mem.Keys == old(mem.Keys)
      ensures Contents() == Without(old(Contents()), idx)
      ensures if Has(old(Contents()), idx) then entry != null && entry == free && entry.idx == idx
                 && Item(idx, entry.data) in old(Contents())
              else entry == null
    {
      ghost var i;
      entry, i := Lookup(idx);
      if entry != null {
        EntrySynced(entry);
        assert Contents()[i] == Item(idx, entry.data);
        WithoutDistinct(Contents(), idx);
        hide Links, Distinct, Without, Has, Snapshot, Cut;
        PartitionHas(useds, frees, mem.Keys);
        RemoveEntry(entry, i);
        CutItems(old(mem), mem, old(useds), i);
        EntrySynced(entry);
      } else {
        WithoutAbsent(Contents(), idx);
      }
    }
  }
}
