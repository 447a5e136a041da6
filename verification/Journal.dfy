/** The commit of a journal transaction: its tags are spread over five lists of items from a fixed pool, the
    lists are replayed, and the items go back to the pool. */
module Journal {

  import opened Words
  import opened Wrappers
  import opened JournalSpec
  import opened JournalData

  /** struct journal_item_t; its next field is the list it is on. */
  class JournalItem {
    var e: Entry
    constructor ()
    {
      e := Entry(0, 0, 0);
    }
  }

  /** The size of sjb_data. */
  const MAX_BLOCK := 4096

  /** FREEJOURNALITEM */
  const POOL := 1024

  ghost function Contents(list: seq<JournalItem>): (r: seq<Entry>)
    reads list
    ensures |r| == |list|
  {
    if list == [] then [] else [list[0].e] + Contents(list[1..])
  }

  lemma {:induction false} ContentsMore(list: seq<JournalItem>, x: JournalItem)
    ensures Contents(list + [x]) == Contents(list) + [x.e]
  {
    if list == [] {
      assert list + [x] == [x];
    } else {
      assert (list + [x])[1..] == list[1..] + [x];
      ContentsMore(list[1..], x);
    }
  }

  /** All items on the lists. */
  ghost function Bag(lists: seq<seq<JournalItem>>): multiset<JournalItem> {
    if lists == [] then multiset{} else multiset(lists[0]) + Bag(lists[1..])
  }

  lemma {:induction false} BagUpdate(lists: seq<seq<JournalItem>>, i: nat, v: seq<JournalItem>)
    requires i < |lists|
    ensures Bag(lists[i := v]) + multiset(lists[i]) == Bag(lists) + multiset(v)
  {
    if i == 0 {
      assert lists[i := v][1..] == lists[1..];
    } else {
      var rest := lists[1..];
      assert lists[i := v][1..] == rest[i - 1 := v];
      BagUpdate(rest, i - 1, v);
      AddFront(multiset(lists[0]), Bag(rest[i - 1 := v]), multiset(lists[i]), Bag(rest), multiset(v));
    }
  }

  lemma AddFront(a: multiset<JournalItem>, b: multiset<JournalItem>, x: multiset<JournalItem>,
                 c: multiset<JournalItem>, y: multiset<JournalItem>)
    requires b + x == c + y
    ensures (a + b) + x == (a + c) + y
  {
    assert (a + b) + x == a + (b + x);
    assert (a + c) + y == a + (c + y);
  }

  lemma {:induction false} BagMember(lists: seq<seq<JournalItem>>, i: nat)
    requires i < |lists|
    ensures multiset(lists[i]) <= Bag(lists)
  {
    if i > 0 {
      BagMember(lists[1..], i - 1);
    }
  }

  lemma {:induction false} BagOfEmpty(lists: seq<seq<JournalItem>>)
    requires forall i :: 0 <= i < |lists| ==> lists[i] == []
    ensures Bag(lists) == multiset{}
  {
    if lists != [] {
      BagOfEmpty(lists[1..]);
    }
  }

  /** The pool's items, each on exactly one of the lists. */
  ghost predicate Spread(free: seq<JournalItem>, lists: seq<seq<JournalItem>>, pool: set<JournalItem>) {
    multiset(free) + Bag(lists) == multiset(pool)
  }

  /** The class lists hold the entries es of the tags so far, each list those of its class. */
  ghost predicate Sorted(fs: Fs, lists: seq<seq<JournalItem>>, es: seq<Entry>)
    reads set c, k | 0 <= c < |lists| && 0 <= k < |lists[c]| :: lists[c][k]
  {
    |lists| == 5 && forall c :: 0 <= c < 5 ==> Contents(lists[c]) == Only(fs, es, c)
  }

  /** The same with the classes below n already replayed. */
  ghost predicate StillSorted(fs: Fs, lists: seq<seq<JournalItem>>, es: seq<Entry>, n: nat)
    reads set c, k | 0 <= c < |lists| && 0 <= k < |lists[c]| :: lists[c][k]
  {
    && |lists| == 5 && (forall c :: 0 <= c < n && c < 5 ==> lists[c] == [])
    && forall c :: n <= c < 5 ==> Contents(lists[c]) == Only(fs, es, c)
  }

  lemma SortedStill(fs: Fs, lists: seq<seq<JournalItem>>, es: seq<Entry>)
    requires Sorted(fs, lists, es)
    ensures StillSorted(fs, lists, es, 0)
  {
  }

  lemma AllReplayed(fs: Fs, lists: seq<seq<JournalItem>>, es: seq<Entry>)
    requires StillSorted(fs, lists, es, 5)
    ensures |lists| == 5 && forall c :: 0 <= c < 5 ==> lists[c] == []
  {
  }

  /** How many of the entries need an item. */
  function Needed(fs: Fs, es: seq<Entry>): nat {
    |Classified(fs, es)|
  }

  lemma {:induction false} ClassifiedSplit(fs: Fs, a: seq<Entry>, b: seq<Entry>)
    ensures Classified(fs, a + b) == Classified(fs, a) + Classified(fs, b)
    ensures |Classified(fs, a)| <= |a|
  {
    if a == [] {
      assert a + b == b;
    } else {
      assert (a + b)[1..] == a[1..] + b;
      ClassifiedSplit(fs, a[1..], b);
    }
  }

  lemma OnlyOne(fs: Fs, es: seq<Entry>, e: Entry, c: int)
    ensures Only(fs, es + [e], c) == if ClassOf(fs, e) == c then Only(fs, es, c) + [e] else Only(fs, es, c)
  {
    OnlySplit(fs, es, [e], c);
    assert |[e][1..]| == 0;
  }

  lemma OnlyOnes(fs: Fs, es: seq<Entry>, e: Entry)
    ensures forall c :: 0 <= c < 5 ==>
      Only(fs, es + [e], c) == if ClassOf(fs, e) == c then Only(fs, es, c) + [e] else Only(fs, es, c)
  {
    forall c | 0 <= c < 5
      ensures Only(fs, es + [e], c) == if ClassOf(fs, e) == c then Only(fs, es, c) + [e] else Only(fs, es, c)
    {
      OnlyOne(fs, es, e, c);
    }
  }

  lemma MoveOne(free: seq<JournalItem>, bag: multiset<JournalItem>, m: multiset<JournalItem>,
                bag': multiset<JournalItem>)
    requires free != [] && bag' + m == bag + (m + multiset{free[0]})
    ensures multiset(free[1..]) + bag' == multiset(free) + bag
  {
    assert free == [free[0]] + free[1..];
    var x := multiset{free[0]};
    assert bag + (m + x) == (bag + x) + m;
    assert bag' == (bag' + m) - m == bag + x;
  }

  /** The first free item is on no list; moving it to one keeps the pool spread. */
  lemma OneItem(free: seq<JournalItem>, lists: seq<seq<JournalItem>>, pool: set<JournalItem>, i: nat)
    requires Spread(free, lists, pool) && free != [] && i < |lists|
    ensures Spread(free[1..], lists[i := lists[i] + [free[0]]], pool)
  {
    var x := free[0];
    assert free == [x] + free[1..];
    BagUpdate(lists, i, lists[i] + [x]);
    MoveOne(free, Bag(lists), multiset(lists[i]), Bag(lists[i := lists[i] + [x]]));
    assert multiset(lists[i] + [x]) == multiset(lists[i]) + multiset{x};
  }

  lemma NotListed(free: seq<JournalItem>, lists: seq<seq<JournalItem>>, pool: set<JournalItem>)
    requires Spread(free, lists, pool) && free != []
    ensures free[0] in pool && forall c :: 0 <= c < |lists| ==> free[0] !in lists[c]
  {
    var x := free[0];
    assert x in multiset(free);
    assert x in multiset(pool) && multiset(pool)[x] == 1;
    assert Bag(lists)[x] == 0;
    forall c | 0 <= c < |lists| ensures x !in lists[c] {
      BagMember(lists, c);
      assert multiset(lists[c])[x] == 0;
    }
  }

  lemma ReadyToSort(fs: Fs, free: seq<JournalItem>, lists: seq<seq<JournalItem>>, pool: set<JournalItem>)
    requires Spread(free, lists, pool) && |lists| == 5 && forall c :: 0 <= c < 5 ==> lists[c] == []
    ensures Sorted(fs, lists, []) && |free| == |pool|
  {
    BagOfEmpty(lists);
    assert multiset(free) == multiset(pool);
    assert |multiset(free)| == |free| && |multiset(pool)| == |pool|;
  }

  /** What a block written to the journal is, by its header. */
  datatype Kind = Data | Descriptor(sequence: U32) | Commit(sequence: U32) | Revoke | Other | Invalid

  const DESCRIPTOR_BLOCK := 1
  const COMMIT_BLOCK := 2
  const REVOKE_BLOCK := 5

  /** is_journal_fs_block and parse_journal_standard_header */
  function KindOf(buf: seq<Byte>): Kind
    requires |buf| >= 12
  {
    var t, n := ReadU32(buf, 4), ReadU32(buf, 8);
    if ReadU32(buf, 0) != SIGNATURE then Data
    else if t == 0 || t > REVOKE_BLOCK then Invalid
    else if t == DESCRIPTOR_BLOCK then Descriptor(n)
    else if t == COMMIT_BLOCK then Commit(n)
    else if t == REVOKE_BLOCK then Revoke
    else Other
  }

  /** The headers as they are written: signature, type and sequence number in big-endian words. */
  lemma HeaderRead(buf: seq<Byte>, t: Byte, sequence: U32)
    requires |buf| >= 12
    ensures buf[..4] != [0xc0, 0x3b, 0x39, 0x98] <==> KindOf(buf) == Data
    ensures buf[..4] == [0xc0, 0x3b, 0x39, 0x98] && buf[4..8] == [0, 0, 0, t] && buf[8..12] == Bytes(sequence) ==>
      KindOf(buf) == if t == 1 then Descriptor(sequence) else if t == 2 then Commit(sequence)
        else if t == 5 then Revoke else if t == 0 || t > 5 then Invalid else Other
  {
    var w := buf[..4];
    assert buf[0] == w[0] && buf[1] == w[1] && buf[2] == w[2] && buf[3] == w[3];
    assert w == [buf[0], buf[1], buf[2], buf[3]];
    if buf[4..8] == [0, 0, 0, t] {
      var v := buf[4..8];
      assert buf[4] == v[0] == 0 && buf[5] == v[1] == 0 && buf[6] == v[2] == 0 && buf[7] == v[3] == t;
    }
    if buf[8..12] == Bytes(sequence) {
      ReadBytes(buf, 8, sequence);
    }
  }

  /** Whether the block is copied; ok is whether it was accepted. */
  predicate Copies(buf: seq<Byte>, ok: bool)
    requires |buf| >= 12
  {
    KindOf(buf).Data? || KindOf(buf).Revoke? || (KindOf(buf).Descriptor? && ok)
  }

  /** A descriptor block has room for 510 tags at most, so a full pool is always enough. */
  lemma PoolSuffices(fs: Fs, buf: seq<Byte>, blockSize: nat, desc: nat, n: nat)
    requires blockSize <= |buf| && blockSize <= MAX_BLOCK
    ensures Needed(fs, Entries(Tags(buf, 12, blockSize - 12), desc, n)) <= 510 < POOL
  {
    ClassifiedSplit(fs, Entries(Tags(buf, 12, blockSize - 12), desc, n), []);
  }

  lemma ByClassStep(fs: Fs, es: seq<Entry>, c: nat)
    ensures ByClass(fs, es, 0) == [] && ByClass(fs, es, c + 1) == ByClass(fs, es, c) + Only(fs, es, c)
  {
  }

  lemma Regroup(es: seq<Entry>, rest: seq<Entry>)
    requires rest != []
    ensures es + rest == (es + [rest[0]]) + rest[1..]
  {
  }

  lemma FirstTag(buf: seq<Byte>, off: nat, size: int, pos: nat, n: nat)
    requires off + size <= |buf| && HasTag(buf, off, size)
    ensures var t, next, rest := TagAt(buf, off), NextBlock(pos, n), Entries(Tags(buf, off, size), pos, n);
      && rest != [] && rest[0] == Entry(t.fsBlock, t.flags, next)
      && rest[1..] == if IsLast(t) then []
           else Entries(Tags(buf, off + TagLength(t), size - TagLength(t)), next, n)
  {
    assert |Entries([], NextBlock(pos, n), n)| == 0;
  }

  lemma NoTag(buf: seq<Byte>, off: nat, size: int, pos: nat, n: nat)
    requires off + size <= |buf|
    ensures !HasTag(buf, off, size) ==> Entries(Tags(buf, off, size), pos, n) == []
  {
  }

  lemma NoneClassified(fs: Fs)
    ensures Needed(fs, []) == 0
  {
  }

  lemma NeededMore(fs: Fs, es: seq<Entry>, e: Entry, rest: seq<Entry>)
    ensures Needed(fs, es + [e]) == Needed(fs, es) + if ClassOf(fs, e) >= 0 then 1 else 0
    ensures Needed(fs, (es + [e]) + rest) >= Needed(fs, es + [e])
  {
    ClassifiedSplit(fs, es, [e]);
    ClassifiedSplit(fs, es + [e], rest);
    assert |[e][1..]| == 0;
  }

  lemma {:induction false} ContentsAt(list: seq<JournalItem>, k: nat)
    requires k < |list|
    ensures Contents(list)[k] == list[k].e
  {
    if k > 0 {
      ContentsAt(list[1..], k - 1);
    }
  }

  lemma BackToPool(free: seq<JournalItem>, lists: seq<seq<JournalItem>>, pool: set<JournalItem>, i: nat)
    requires Spread(free, lists, pool) && i < |lists|
    ensures Spread(lists[i] + free, lists[i := []], pool)
  {
    BagUpdate(lists, i, []);
    var bag', m, f := Bag(lists[i := []]), multiset(lists[i]), multiset(free);
    assert (m + f) + bag' == f + (bag' + m);
  }

  /** The open transaction: its sequence number, and the position of its descriptor block. */
  datatype Transaction = Transaction(sequence: U32, desc: nat)

  /** The copies of the journal's blocks. */
  ghost predicate JournalOk(blocks: seq<seq<Byte>>, blockSize: nat, tr: Option<Transaction>) {
    && blockSize <= MAX_BLOCK && |blocks| >= 2
    && (forall i :: 0 <= i < |blocks| ==> |blocks[i]| == MAX_BLOCK)
    && (tr.Some? ==> tr.value.desc < |blocks|)
  }

  /** What the descriptor block of the open transaction announces. */
  ghost function Announced(blocks: seq<seq<Byte>>, blockSize: nat, tr: Option<Transaction>): seq<Entry>
    requires JournalOk(blocks, blockSize, tr)
  {
    if tr == None then [] else Entries(Tags(blocks[tr.value.desc], 12, blockSize - 12), tr.value.desc, |blocks|)
  }

  /** The copy of a block after buf has been written over its beginning. */
  function Copied(block: seq<Byte>, buf: seq<Byte>): (r: seq<Byte>)
    requires |buf| <= |block|
    ensures |r| == |block| && r[..|buf|] == buf
  {
    buf + block[|buf|..]
  }

  lemma CopiedOk(blocks: seq<seq<Byte>>, tr: Option<Transaction>, buf: seq<Byte>, pos: nat)
    requires JournalOk(blocks, |buf|, None) && pos < |blocks| && (tr.Some? ==> tr.value.desc < |blocks|)
    ensures JournalOk(blocks[pos := Copied(blocks[pos], buf)], |buf|, tr)
  {
    hide Copied;
  }

  lemma DescribedTags(buf: seq<Byte>)
    ensures forall tags, uuid :: Described(buf, tags, uuid) ==> Tags(buf, 12, |buf| - 12) == tags
  {
    hide Tags, EncodeAll, IsLast;
    forall tags, uuid | Described(buf, tags, uuid) ensures Tags(buf, 12, |buf| - 12) == tags {
      TagsRoundTrip(tags, uuid, buf, 12, |buf| - 12);
    }
  }

  lemma TagsCopied(block: seq<Byte>, buf: seq<Byte>)
    requires |buf| <= |block|
    ensures Tags(Copied(block, buf), 12, |buf| - 12) == Tags(buf, 12, |buf| - 12)
  {
    TagsWithin(buf, block[|buf|..], 12, |buf| - 12);
  }

  /** The pool that init_journal sets up. */
  method NewItems() returns (items: seq<JournalItem>, ghost all: set<JournalItem>)
    ensures |items| == |all| == POOL && fresh(all) && multiset(items) == multiset(all)
  {
    items, all := [], {};
    while |items| < POOL
      invariant |items| == |all| <= POOL && fresh(all) && multiset(items) == multiset(all)
    {
      var x := new JournalItem();
      assert x !in all;
      items, all := items + [x], all + {x};
    }
  }

  lemma PutBack(block: seq<Byte>)
    ensures WithWord(WithWord(block, PATCH), ZERO) == WithWord(block, ZERO)
  {
    assert |block| >= 4 ==> (PATCH + block[4..])[4..] == block[4..];
  }

  class Replayer {
    /** free_journal_items, and the lists of head and tail */
    var free: seq<JournalItem>
    var lists: seq<seq<JournalItem>>
    /** What has been passed to ext2_introspection. */
    var replayed: seq<Logged>
    var tr: Option<Transaction>
    var blocks: seq<seq<Byte>>
    const blockSize: nat
    ghost var pool: set<JournalItem>

    ghost predicate Valid()
      reads this
    {
      |lists| == 5 && Spread(free, lists, pool)
    }

    /** Between commits the whole pool is free. */
    ghost predicate Ready()
      reads this
    {
      Valid() && (forall c :: 0 <= c < 5 ==> lists[c] == []) && |pool| == POOL
    }

    constructor (blocks: seq<seq<Byte>>, blockSize: nat)
      ensures Ready() && fresh(pool) && replayed == [] && tr == None
      ensures this.blocks == blocks && this.blockSize == blockSize
    {
      this.blockSize := blockSize;
      var items;
      ghost var all;
      items, all := NewItems();
      free, lists, replayed, pool, tr, this.blocks := items, [[], [], [], [], []], [], all, None, blocks;
      new;
      BagOfEmpty(lists);
    }

    /** The tag goes to the list of its class, in the first free item. */
    method Enlist(fs: Fs, e: Entry, ghost es: seq<Entry>) returns (ok: bool)
      requires Valid() && Sorted(fs, lists, es)
      modifies this`free, this`lists, pool
      ensures ok <==> ClassOf(fs, e) < 0 || old(free) != []
      ensures ok ==> Valid() && Sorted(fs, lists, es + [e])
      ensures ok ==> |free| == old(|free|) - if ClassOf(fs, e) >= 0 then 1 else 0
    {
      hide Spread, Only;
      OnlyOnes(fs, es, e);
      var i := ClassOf(fs, e);
      if i < 0 {
        return true;
      }
      if free == [] {
        return false;
      }
      var x := free[0];
      NotListed(free, lists, pool);
      OneItem(free, lists, pool, i);
      ghost var was := lists;
      lists := lists[i := lists[i] + [x]];
      free := free[1..];
      x.e := e;
      ContentsMore(was[i], x);
      assert forall c :: 0 <= c < 5 ==> Contents(was[c]) == old(Contents(was[c]));
      return true;
    }

    /** The walk over the tags of the descriptor block. */
    method Collect(fs: Fs, buf: seq<Byte>, blockSize: nat, desc: nat, n: nat) returns (ok: bool)
      requires Valid() && Sorted(fs, lists, []) && blockSize <= |buf|
      modifies this`free, this`lists, pool
      ensures var es := Entries(Tags(buf, 12, blockSize - 12), desc, n);
        && (ok <==> Needed(fs, es) <= old(|free|))
        && (ok ==> Valid() && Sorted(fs, lists, es))
    {
      hide Spread, Only, TagAt, Needed, Sorted, ClassOf, Tags, Entries;
      ghost var all := Entries(Tags(buf, 12, blockSize - 12), desc, n);
      ghost var es: seq<Entry> := [];
      ghost var rest := all;
      var off, size, pos, more := 12, blockSize - 12, desc, true;
      NoneClassified(fs);
      while more && HasTag(buf, off, size)
        invariant off + size == blockSize && Valid() && Sorted(fs, lists, es)
        invariant rest == if more then Entries(Tags(buf, off, size), pos, n) else []
        invariant all == es + rest && |free| + Needed(fs, es) == old(|free|)
        decreases size
      {
        FirstTag(buf, off, size, pos, n);
        var t := TagAt(buf, off);
        pos := NextBlock(pos, n);
        NeededMore(fs, es, Entry(t.fsBlock, t.flags, pos), rest[1..]);
        Regroup(es, rest);
        ok := Enlist(fs, Entry(t.fsBlock, t.flags, pos), es);
        if !ok {
          return;
        }
        es, rest := es + [rest[0]], rest[1..];
        off, size, more := off + TagLength(t), size - TagLength(t), !IsLast(t);
      }
      NoTag(buf, off, size, pos, n);
      assert es + rest == es;
      ok := true;
    }

    /** The first word of an escaped block is put in for the replay, and taken out again. */
    method ReplayItem(e: Entry)
      modifies this`replayed, this`blocks
      ensures replayed == old(replayed) + [Logged(e, Patched(e, BlockAt(old(blocks), e.position)))]
      ensures blocks == Settled(old(blocks), e)
    {
      hide WithWord;
      var escaped := Escaped(e) && e.position < |blocks|;
      if escaped {
        PutBack(blocks[e.position]);
        blocks := blocks[e.position := WithWord(blocks[e.position], PATCH)];
      }
      replayed := replayed + [Logged(e, BlockAt(blocks, e.position))];
      if escaped {
        blocks := blocks[e.position := WithWord(blocks[e.position], ZERO)];
      }
    }

    /** One list, in order. */
    method ReplayClass(i: nat)
      requires i < |lists|
      modifies this`replayed, this`blocks
      ensures replayed == old(replayed) + WithData(old(blocks), Contents(lists[i]))
      ensures blocks == SettledAll(old(blocks), Contents(lists[i]))
    {
      hide WithData, SettledAll, Settled, Patched, BlockAt;
      ghost var c := Contents(lists[i]);
      ReplayNothing(blocks);
      for k := 0 to |lists[i]|
        invariant replayed == old(replayed) + WithData(old(blocks), c[..k])
        invariant blocks == SettledAll(old(blocks), c[..k])
      {
        ContentsAt(lists[i], k);
        assert c[..k + 1] == c[..k] + [c[k]];
        ReplayJoin(old(blocks), c[..k], [c[k]]);
        ReplayOne(blocks, c[k]);
        ReplayItem(lists[i][k].e);
      }
      assert c[..|c|] == c;
    }

    /** One class: its list goes back to the front of the pool. */
    method ReplayAndFree(fs: Fs, ghost es: seq<Entry>, i: nat)
      requires Valid() && i < 5 && StillSorted(fs, lists, es, i)
      modifies this`free, this`lists, this`replayed, this`blocks
      ensures Valid() && StillSorted(fs, lists, es, i + 1)
      ensures replayed == old(replayed) + WithData(old(blocks), Only(fs, es, i))
      ensures blocks == SettledAll(old(blocks), Only(fs, es, i))
    {
      hide Spread, Contents, WithData, SettledAll, Only;
      ReplayClass(i);
      BackToPool(free, lists, pool, i);
      free, lists := lists[i] + free, lists[i := []];
    }

    /** The classes one after the other. */
    method ReplayAll(fs: Fs, ghost es: seq<Entry>)
      requires Valid() && Sorted(fs, lists, es)
      modifies this`free, this`lists, this`replayed, this`blocks
      ensures Valid() && forall c :: 0 <= c < 5 ==> lists[c] == []
      ensures replayed == old(replayed) + WithData(old(blocks), ByClass(fs, es, 5))
      ensures blocks == SettledAll(old(blocks), ByClass(fs, es, 5))
    {
      hide Spread, Only, ByClass, WithData, SettledAll, Sorted, StillSorted, Contents;
      SortedStill(fs, lists, es);
      ReplayNothing(blocks);
      ByClassStep(fs, es, 0);
      var i := 0;
      while i < 5
        invariant i <= 5 && Valid() && StillSorted(fs, lists, es, i)
        invariant replayed == old(replayed) + WithData(old(blocks), ByClass(fs, es, i))
        invariant blocks == SettledAll(old(blocks), ByClass(fs, es, i))
      {
        ByClassStep(fs, es, i);
        ReplayJoin(old(blocks), ByClass(fs, es, i), Only(fs, es, i));
        ReplayAndFree(fs, es, i);
        i := i + 1;
      }
      AllReplayed(fs, lists, es);
    }

    ghost predicate JournalValid()
      reads this
    {
      JournalOk(blocks, blockSize, tr)
    }

    /** What a commit is going to replay, before it is put in the order of the classes. */
    ghost function Pending(): seq<Entry>
      requires JournalValid()
      reads this
    {
      Announced(blocks, blockSize, tr)
    }

    /** A descriptor block: begin_transaction, and the copy. A second open transaction is refused; otherwise what
        the tags of the block announce is pending, in particular any tags that were written there. */
    method Begin(desc: nat, sequence: U32, buf: seq<Byte>) returns (ok: bool)
      requires JournalValid() && desc < |blocks| && blockSize == |buf|
      modifies this`tr, this`blocks
      ensures JournalValid() && |blocks| == old(|blocks|)
      ensures ok <==> old(tr) == None
      ensures ok ==> tr != None && tr.value.sequence == sequence && tr.value.desc == desc
      ensures ok ==> forall tags, uuid :: Described(buf, tags, uuid) ==> Pending() == Entries(tags, desc, |blocks|)
      ensures ok ==> blocks[desc][..blockSize] == buf
      ensures forall i :: 0 <= i < |blocks| && (ok ==> i != desc) ==> blocks[i] == old(blocks)[i]
      ensures !ok ==> tr == old(tr)
    {
      ok := tr == None;
      if ok {
        TagsCopied(blocks[desc], buf);
        CopiedOk(blocks, Some(Transaction(sequence, desc)), buf, desc);
        DescribedTags(buf);
        hide Tags, Entries, Described, Copied;
        tr := Some(Transaction(sequence, desc));
        blocks := blocks[desc := Copied(blocks[desc], buf)];
      }
    }

    /** The copy of any other block: what is pending is not touched, unless it is the descriptor block again. */
    method Copy(pos: nat, buf: seq<Byte>)
      requires JournalValid() && pos < |blocks| && blockSize == |buf|
      modifies this`blocks
      ensures JournalValid() && |blocks| == old(|blocks|) && blocks[pos][..blockSize] == buf
      ensures forall i :: 0 <= i < |blocks| && i != pos ==> blocks[i] == old(blocks)[i]
      ensures (tr != None ==> tr.value.desc != pos) ==> Pending() == old(Pending())
    {
      blocks := blocks[pos := Copied(blocks[pos], buf)];
    }

    /** A commit block: nothing without an open transaction, an error for another one's sequence number,
        and otherwise the replay of what is pending, after which the pool is complete again. */
    method Commit(fs: Fs, sequence: U32) returns (ok: bool)
      requires Ready() && JournalValid()
      modifies this`free, this`lists, this`replayed, this`tr, this`blocks, pool
      ensures Ready() && JournalValid()
      ensures ok <==> old(tr) == None || old(tr).value.sequence == sequence
      ensures replayed == old(replayed) + if ok then WithData(old(blocks), ByClass(fs, old(Pending()), 5)) else []
      ensures blocks == if ok then SettledAll(old(blocks), ByClass(fs, old(Pending()), 5)) else old(blocks)
      ensures ok ==> old(replayed) <= replayed && Replays(fs, old(Pending()), EntriesOf(replayed[|old(replayed)|..]))
      ensures tr == if ok then None else old(tr)
    {
      hide Spread, Only, Tags, Entries, Needed, ByClass, WithData, SettledAll;
      hide Replays, EntriesOf;
      NothingByClass(fs, 5);
      ReplayNothing(blocks);
      ReplayOrder(fs, Pending());
      LoggedSince(replayed, replayed + WithData(blocks, ByClass(fs, Pending(), 5)), blocks, ByClass(fs, Pending(), 5));
      if tr == None {
        return true;
      }
      if tr.value.sequence != sequence {
        return false;
      }
      var desc := tr.value.desc;
      ReadyToSort(fs, free, lists, pool);
      PoolSuffices(fs, blocks[desc], blockSize, desc, |blocks|);
      ok := Collect(fs, blocks[desc], blockSize, desc, |blocks|);
      assert ok;
      ReplayAll(fs, Entries(Tags(blocks[desc], 12, blockSize - 12), desc, |blocks|));
      tr := None;
    }

    /** journal_rw_introspection for a write to journal block pos. */
    method Write(fs: Fs, pos: nat, buf: seq<Byte>) returns (ok: bool)
      requires Ready() && JournalValid() && pos < |blocks| && 12 <= blockSize == |buf|
      modifies this`free, this`lists, this`replayed, this`tr, this`blocks, pool
      ensures Ready() && JournalValid() && |blocks| == old(|blocks|)
      ensures ok <==> match KindOf(buf)
        case Descriptor(_) => old(tr) == None
        case Commit(n) => old(tr) == None || old(tr).value.sequence == n
        case Invalid => false
        case _ => true
      ensures KindOf(buf).Commit? && ok ==> tr == None
      ensures KindOf(buf).Commit? && ok ==>
        && replayed == old(replayed) + WithData(old(blocks), ByClass(fs, old(Pending()), 5))
        && blocks == SettledAll(old(blocks), ByClass(fs, old(Pending()), 5))
      ensures !(KindOf(buf).Commit? && ok) ==> replayed == old(replayed)
      ensures KindOf(buf).Descriptor? && ok ==> tr == Some(Transaction(KindOf(buf).sequence, pos))
      ensures KindOf(buf).Descriptor? && ok ==>
        forall tags, uuid :: Described(buf, tags, uuid) ==> Pending() == Entries(tags, pos, |blocks|)
      ensures !(KindOf(buf).Commit? || KindOf(buf).Descriptor?) ==> tr == old(tr)
      ensures !(KindOf(buf).Commit? || KindOf(buf).Descriptor?) && (tr != None ==> tr.value.desc != pos) ==>
        Pending() == old(Pending())
      ensures !(KindOf(buf).Commit? && ok) ==>
        forall i :: 0 <= i < |blocks| && (i == pos ==> !Copies(buf, ok)) ==> blocks[i] == old(blocks)[i]
      ensures Copies(buf, ok) ==> blocks[pos][..blockSize] == buf
    {
      if ReadU32(buf, 0) != SIGNATURE {
        Copy(pos, buf);
        return true;
      }
      var blockType, sequence := ReadU32(buf, 4), ReadU32(buf, 8);
      if blockType == 0 || blockType > REVOKE_BLOCK {
        return false;
      }
      ok := true;
      if blockType == DESCRIPTOR_BLOCK {
        ok := Begin(pos, sequence, buf);
      } else if blockType == COMMIT_BLOCK {
        ok := this.Commit(fs, sequence);
      } else if blockType == REVOKE_BLOCK {
        Copy(pos, buf);
      }
    }
  }

  ghost predicate WriteOk(w: BlockWrite, nblocks: nat, blockSize: nat) {
    w.pos < nblocks && |w.buf| == blockSize && 12 <= blockSize
  }

  lemma BlockSizes(r: Replayer)
    requires r.JournalValid()
    ensures forall i :: 0 <= i < |r.blocks| ==> r.blockSize <= |r.blocks[i]|
  {
  }

  /** A whole transaction as it is written to the journal: the descriptor block with its tags, the copies, the
      commit block. What is replayed is what the tags say, class by class, whatever was in the journal before, and
      with the copies that were written for the tags; held is the journal before the commit. */
  method WholeTransaction(r: Replayer, fs: Fs, desc: BlockWrite, copies: seq<BlockWrite>, commit: BlockWrite,
                          ghost sequence: U32, ghost tags: seq<Tag>, ghost uuid: seq<Byte>)
    returns (ghost held: seq<seq<Byte>>)
    requires r.Ready() && r.JournalValid() && r.tr == None
    requires WriteOk(desc, |r.blocks|, r.blockSize) && WriteOk(commit, |r.blocks|, r.blockSize)
    requires KindOf(desc.buf) == Descriptor(sequence) && Described(desc.buf, tags, uuid)
    requires KindOf(commit.buf) == Commit(sequence)
    requires forall i :: 0 <= i < |copies| ==>
      WriteOk(copies[i], |r.blocks|, r.blockSize) && KindOf(copies[i].buf) == Data && copies[i].pos != desc.pos
    modifies r, r.pool
    ensures r.Ready() && r.JournalValid() && r.tr == None && |r.blocks| == old(|r.blocks|)
    ensures Holding(held, r.blockSize, copies)
    ensures var es := Entries(tags, desc.pos, |r.blocks|);
      && r.replayed == old(r.replayed) + WithData(held, ByClass(fs, es, 5))
      && r.blocks == SettledAll(held, ByClass(fs, es, 5))
      && old(r.replayed) <= r.replayed && Replays(fs, es, EntriesOf(r.replayed[|old(r.replayed)|..]))
      && (InPlace(copies, es) ==>
           forall x :: x in WithData(held, ByClass(fs, es, 5)) ==> CopyOf(x, copies, es, r.blockSize))
  {
    hide Replays, EntriesOf, KindOf, ByClass, Entries, Described, JournalOk, Replayer.Ready, WithData, SettledAll;
    hide Holding, InPlace, CopyOf;
    var ok := r.Write(fs, desc.pos, desc.buf);
    NothingHeld(r.blocks, r.blockSize);
    for i := 0 to |copies|
      invariant r.Ready() && r.JournalValid() && |r.blocks| == old(|r.blocks|) && r.pool == old(r.pool)
      invariant r.replayed == old(r.replayed) && r.tr == Some(Transaction(sequence, desc.pos))
      invariant r.Pending() == Entries(tags, desc.pos, |r.blocks|) && Holding(r.blocks, r.blockSize, copies[..i])
    {
      ghost var before := r.blocks;
      ok := r.Write(fs, copies[i].pos, copies[i].buf);
      BlockSizes(r);
      HoldingMore(before, r.blocks, r.blockSize, copies[..i], copies[i]);
      assert copies[..i + 1] == copies[..i] + [copies[i]];
    }
    assert copies[..|copies|] == copies;
    held := r.blocks;
    ReplayOrder(fs, r.Pending());
    ghost var sorted := ByClass(fs, r.Pending(), 5);
    LoggedSince(r.replayed, r.replayed + WithData(held, sorted), held, sorted);
    ok := r.Write(fs, commit.pos, commit.buf);
    if InPlace(copies, Entries(tags, desc.pos, |r.blocks|)) {
      ReplaysCopies(held, r.blockSize, copies, fs, Entries(tags, desc.pos, |r.blocks|));
    }
  }
}
