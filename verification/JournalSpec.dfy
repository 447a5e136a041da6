/** The descriptor block of an ext3 journal transaction, and the order in which its blocks are replayed. */
module JournalSpec {

  import opened Words
  import opened Wrappers

  datatype BlockType = BlockBitmap | InodeBitmap | InodeTable | DataBlock | OtherBlock

  /** describe: init_blockdesc2, None where it fails; inode and level: whether the block list has an owning
      inode, and a level of indirection, for a data block. */
  datatype Fs = Fs(describe: U32 -> Option<BlockType>, inode: U32 -> bool, level: U32 -> bool)

  datatype Tag = Tag(fsBlock: U32, flags: U32)

  /** One block to replay: the file system block, and the position of its copy in the journal. */
  datatype Entry = Entry(fsBlock: U32, flags: U32, position: nat)

  // ---------- the tags ----------

  function Word(a: Byte, b: Byte, c: Byte, d: Byte): U32 {
    ((a as int * 256 + b as int) * 256 + c as int) * 256 + d as int
  }

  function ReadU32(buf: seq<Byte>, off: nat): U32
    requires off + 4 <= |buf|
  {
    Word(buf[off], buf[off + 1], buf[off + 2], buf[off + 3])
  }

  function Bytes(x: U32): (r: seq<Byte>)
    ensures |r| == 4
  {
    [x / 256 / 256 / 256, x / 256 / 256 % 256, x / 256 % 256, x % 256]
  }

  /** JOURNAL_DESC_ESCAPE */
  predicate Escaped(e: Entry) { e.flags % 2 == 1 }

  /** JOURNAL_DESC_SAME_UUID */
  predicate SameUuid(t: Tag) { t.flags / 2 % 2 == 1 }

  /** JOURNAL_DESC_LAST_ENTRY */
  predicate IsLast(t: Tag) { t.flags / 8 % 2 == 1 }

  function Flag(b: bool, bit: U32): nat { if b then bit else 0 }

  /** The flags as they are written: 1 for an escaped block, 2 for the identifier of the tag before, 4 for a deleted
      block, 8 for the last tag. */
  lemma FlagBits(t: Tag, escaped: bool, same: bool, deleted: bool, last: bool)
    requires t.flags == Flag(escaped, 1) + Flag(same, 2) + Flag(deleted, 4) + Flag(last, 8)
    ensures Escaped(Entry(t.fsBlock, t.flags, 0)) == escaped && SameUuid(t) == same && IsLast(t) == last
  {
  }

  function TagLength(t: Tag): int { if SameUuid(t) then 8 else 24 }

  function TagAt(buf: seq<Byte>, off: nat): Tag
    requires off + 8 <= |buf|
  {
    Tag(ReadU32(buf, off), ReadU32(buf, off + 4))
  }

  /** Whether parse_journal_descriptor_entry accepts what is at off, with size bytes left. */
  predicate HasTag(buf: seq<Byte>, off: nat, size: int)
    requires off + size <= |buf|
  {
    size >= 8 && size >= TagLength(TagAt(buf, off))
  }

  ghost function Tags(buf: seq<Byte>, off: nat, size: int): (r: seq<Tag>)
    requires off + size <= |buf|
    ensures 8 * |r| <= size || r == []
    decreases size
  {
    if !HasTag(buf, off, size) then []
    else
      var t := TagAt(buf, off);
      [t] + if IsLast(t) then [] else Tags(buf, off + TagLength(t), size - TagLength(t))
  }

  /** A tag as it is written: the block, the flags, and the identifier unless it is that of the tag before. */
  function Encode(t: Tag, uuid: seq<Byte>): seq<Byte>
    requires |uuid| == 16
  {
    Bytes(t.fsBlock) + Bytes(t.flags) + if SameUuid(t) then [] else uuid
  }

  function EncodeAll(tags: seq<Tag>, uuid: seq<Byte>): seq<Byte>
    requires |uuid| == 16
  {
    if tags == [] then [] else Encode(tags[0], uuid) + EncodeAll(tags[1..], uuid)
  }

  lemma EncodeLength(t: Tag, uuid: seq<Byte>)
    requires |uuid| == 16
    ensures |Encode(t, uuid)| == TagLength(t)
  {
  }

  lemma WordOf(x: U32)
    ensures Word(Bytes(x)[0], Bytes(x)[1], Bytes(x)[2], Bytes(x)[3]) == x
  {
    var y := x / 256;
    var z := y / 256;
    assert z == z / 256 * 256 + z % 256 && y == z * 256 + y % 256 && x == y * 256 + x % 256;
  }

  lemma ReadBytes(buf: seq<Byte>, off: nat, x: U32)
    requires off + 4 <= |buf| && buf[off..off + 4] == Bytes(x)
    ensures ReadU32(buf, off) == x
  {
    hide Word, Bytes;
    WordOf(x);
    var b := buf[off..off + 4];
    assert b[0] == buf[off] && b[1] == buf[off + 1] && b[2] == buf[off + 2] && b[3] == buf[off + 3];
  }

  lemma SliceOfSlice(buf: seq<Byte>, off: nat, n: nat, i: nat, j: nat)
    requires i <= j <= n && off + n <= |buf|
    ensures buf[off..off + n][i..j] == buf[off + i..off + j]
  {
    var a, b := buf[off..off + n][i..j], buf[off + i..off + j];
    forall k | 0 <= k < j - i ensures a[k] == b[k] {
      assert a[k] == buf[off..off + n][i + k];
    }
  }

  lemma ReadTag(buf: seq<Byte>, off: nat, t: Tag, uuid: seq<Byte>)
    requires |uuid| == 16 && off + TagLength(t) <= |buf| && buf[off..off + TagLength(t)] == Encode(t, uuid)
    ensures TagAt(buf, off) == t
  {
    hide ReadU32, Bytes;
    var e := Encode(t, uuid);
    assert e[..4] == Bytes(t.fsBlock) && e[4..8] == Bytes(t.flags);
    SliceOfSlice(buf, off, TagLength(t), 0, 4);
    SliceOfSlice(buf, off, TagLength(t), 4, 8);
    ReadBytes(buf, off, t.fsBlock);
    ReadBytes(buf, off + 4, t.flags);
  }

  /** Tags written one after the other, the last of them marked, are read back, whatever follows. */
  lemma {:induction false} TagsRoundTrip(tags: seq<Tag>, uuid: seq<Byte>, buf: seq<Byte>, off: nat, size: int)
    requires |uuid| == 16 && off + size <= |buf| && tags != []
    requires |EncodeAll(tags, uuid)| <= size && buf[off..off + |EncodeAll(tags, uuid)|] == EncodeAll(tags, uuid)
    requires forall i :: 0 <= i < |tags| ==> (IsLast(tags[i]) <==> i == |tags| - 1)
    ensures Tags(buf, off, size) == tags
    decreases |tags|
  {
    hide TagAt, Encode;
    EncodeLength(tags[0], uuid);
    var t, n := tags[0], TagLength(tags[0]);
    var all, rest := EncodeAll(tags, uuid), EncodeAll(tags[1..], uuid);
    assert all == Encode(t, uuid) + rest;
    SliceOfSlice(buf, off, |all|, 0, n);
    SliceOfSlice(buf, off, |all|, n, |all|);
    assert all[..n] == Encode(t, uuid) && all[n..] == rest;
    ReadTag(buf, off, t, uuid);
    if |tags| > 1 {
      TagsRoundTrip(tags[1..], uuid, buf, off + n, size - n);
    } else {
      assert tags == [t];
    }
  }

  /** The descriptor block buf was written with these tags. */
  ghost predicate Described(buf: seq<Byte>, tags: seq<Tag>, uuid: seq<Byte>) {
    && |uuid| == 16 && tags != [] && (forall i :: 0 <= i < |tags| ==> (IsLast(tags[i]) <==> i == |tags| - 1))
    && 12 + |EncodeAll(tags, uuid)| <= |buf| && buf[12..12 + |EncodeAll(tags, uuid)|] == EncodeAll(tags, uuid)
  }

  lemma SameTag(buf: seq<Byte>, rest: seq<Byte>, off: nat)
    requires off + 8 <= |buf|
    ensures TagAt(buf + rest, off) == TagAt(buf, off)
  {
    assert forall i :: 0 <= i < |buf| ==> (buf + rest)[i] == buf[i];
  }

  /** The tags are read from the size bytes only. */
  lemma {:induction false} TagsWithin(buf: seq<Byte>, rest: seq<Byte>, off: nat, size: int)
    requires off + size <= |buf|
    ensures Tags(buf + rest, off, size) == Tags(buf, off, size)
    decreases size
  {
    hide TagAt;
    if size >= 8 {
      var t := TagAt(buf, off);
      SameTag(buf, rest, off);
      if size >= TagLength(t) && !IsLast(t) {
        TagsWithin(buf, rest, off + TagLength(t), size - TagLength(t));
      }
    }
  }

  // ---------- their places in the journal ----------

  /** The journal block after pos of n; block 0 is the superblock and is skipped. */
  function NextBlock(pos: nat, n: nat): nat {
    if pos == n - 1 then 1 else pos + 1
  }

  function Entries(tags: seq<Tag>, pos: nat, n: nat): (r: seq<Entry>)
    ensures |r| == |tags|
    decreases |tags|
  {
    if tags == [] then []
    else [Entry(tags[0].fsBlock, tags[0].flags, NextBlock(pos, n))] + Entries(tags[1..], NextBlock(pos, n), n)
  }

  /** The k-th tag goes with the k-th block after the descriptor, counting in a circle over blocks 1 to n - 1. */
  lemma {:induction false} CircularPosition(tags: seq<Tag>, pos: nat, n: nat, k: nat)
    requires n >= 2 && pos < n && k < |tags|
    ensures Entries(tags, pos, n)[k] == Entry(tags[k].fsBlock, tags[k].flags, (pos + k) % (n - 1) + 1)
    decreases |tags|
  {
    if k == 0 {
      NextInCircle(pos, n);
    } else {
      CircularPosition(tags[1..], NextBlock(pos, n), n, k - 1);
      OneFurther(pos, n, k);
    }
  }

  /** Up to n - 1 tags go with different blocks. */
  lemma DistinctPositions(tags: seq<Tag>, pos: nat, n: nat, i: nat, j: nat)
    requires n >= 2 && pos < n && i < j < |tags| <= n - 1
    ensures Entries(tags, pos, n)[i].position != Entries(tags, pos, n)[j].position
  {
    CircularPosition(tags, pos, n, i);
    CircularPosition(tags, pos, n, j);
    hide Entries;
    DistinctRemainders(pos + i, pos + j, n - 1);
  }

  lemma NextInCircle(pos: nat, n: nat)
    requires n >= 2 && pos < n
    ensures NextBlock(pos, n) == pos % (n - 1) + 1 < n
  {
    if pos == n - 1 {
      Remainder(pos, n - 1, 1, 0);
    } else {
      Remainder(pos, n - 1, 0, pos);
    }
  }

  lemma OneFurther(pos: nat, n: nat, k: nat)
    requires n >= 2 && pos < n && k >= 1
    ensures (NextBlock(pos, n) + (k - 1)) % (n - 1) == (pos + k) % (n - 1)
  {
    if pos == n - 1 {
      var m := n - 1;
      var q, r := k / m, k % m;
      assert m + k == (q + 1) * m + r;
      Remainder(m + k, m, q + 1, r);
    }
  }

  // ---------- the order of replay ----------

  /** get_journal_type */
  function JournalType(fs: Fs, fsBlock: U32, t: BlockType): int {
    match t
    case InodeBitmap => 0
    case BlockBitmap => 0
    case DataBlock => if fs.inode(fsBlock) then (if fs.level(fsBlock) then 2 else 4) else 1
    case InodeTable => 3
    case OtherBlock => -1
  }

  function ClassOf(fs: Fs, e: Entry): (c: int)
    ensures -1 <= c < 5
  {
    match fs.describe(e.fsBlock)
    case None => -1
    case Some(t) => JournalType(fs, e.fsBlock, t)
  }

  /** The entries of one class, in their order. */
  function Only(fs: Fs, es: seq<Entry>, c: int): seq<Entry> {
    if es == [] then [] else (if ClassOf(fs, es[0]) == c then [es[0]] else []) + Only(fs, es[1..], c)
  }

  /** The entries of the classes below c, class by class. */
  function ByClass(fs: Fs, es: seq<Entry>, c: nat): seq<Entry> {
    if c == 0 then [] else ByClass(fs, es, c - 1) + Only(fs, es, c - 1)
  }

  /** The entries that have a class at all. */
  function Classified(fs: Fs, es: seq<Entry>): seq<Entry> {
    if es == [] then [] else (if ClassOf(fs, es[0]) >= 0 then [es[0]] else []) + Classified(fs, es[1..])
  }

  lemma {:induction false} OnlySplit(fs: Fs, a: seq<Entry>, b: seq<Entry>, c: int)
    ensures Only(fs, a + b, c) == Only(fs, a, c) + Only(fs, b, c)
  {
    if a == [] {
      assert a + b == b;
    } else {
      assert (a + b)[1..] == a[1..] + b;
      OnlySplit(fs, a[1..], b, c);
    }
  }

  lemma {:induction false} OnlyOf(fs: Fs, es: seq<Entry>, c: int, d: int)
    ensures Only(fs, Only(fs, es, c), d) == if c == d then Only(fs, es, c) else []
    ensures forall e :: e in Only(fs, es, c) ==> ClassOf(fs, e) == c
  {
    if es != [] {
      OnlyOf(fs, es[1..], c, d);
      var rest := Only(fs, es[1..], c);
      if ClassOf(fs, es[0]) == c {
        assert Only(fs, es, c) == [es[0]] + rest && ([es[0]] + rest)[1..] == rest;
      } else {
        assert Only(fs, es, c) == [] + rest == rest;
      }
    }
  }

  /** The replay is sorted by class ... */
  lemma {:induction false} ReplaySorted(fs: Fs, es: seq<Entry>, c: nat)
    ensures InClassOrder(fs, ByClass(fs, es, c), c)
  {
    if c > 0 {
      hide ClassOf, Only, InClassOrder;
      ReplaySorted(fs, es, c - 1);
      OnlyOf(fs, es, c - 1, 0);
      OneClassMore(fs, ByClass(fs, es, c - 1), Only(fs, es, c - 1), c - 1);
    }
  }

  ghost predicate InClassOrder(fs: Fs, r: seq<Entry>, c: nat) {
    && (forall i :: 0 <= i < |r| ==> 0 <= ClassOf(fs, r[i]) < c)
    && (forall i, j :: 0 <= i < j < |r| ==> ClassOf(fs, r[i]) <= ClassOf(fs, r[j]))
  }

  lemma OneClassMore(fs: Fs, a: seq<Entry>, b: seq<Entry>, c: nat)
    requires InClassOrder(fs, a, c) && forall e :: e in b ==> ClassOf(fs, e) == c
    ensures InClassOrder(fs, a + b, c + 1)
  {
    hide ClassOf;
    assert forall i :: 0 <= i < |b| ==> b[i] in b;
  }

  lemma OnlyOfNone(fs: Fs, c: int)
    ensures Only(fs, [], c) == []
  {
  }

  /** ... stable, each class being in the order of the tags ... */
  lemma {:induction false} ReplayStable(fs: Fs, es: seq<Entry>, c: nat, d: int)
    ensures Only(fs, ByClass(fs, es, c), d) == if 0 <= d < c then Only(fs, es, d) else []
  {
    hide Only, ClassOf;
    if c > 0 {
      var a, b, o := ByClass(fs, es, c - 1), Only(fs, es, c - 1), Only(fs, es, d);
      assert ByClass(fs, es, c) == a + b;
      hide ByClass;
      ReplayStable(fs, es, c - 1, d);
      OnlySplit(fs, a, b, d);
      OnlyOf(fs, es, c - 1, d);
      assert o + [] == o == [] + o;
    } else {
      OnlyOfNone(fs, d);
    }
  }

  /** ... and has every classified entry exactly once. */
  lemma {:induction false} ReplayOnce(fs: Fs, es: seq<Entry>)
    ensures multiset(ByClass(fs, es, 5)) == multiset(Classified(fs, es))
  {
    if es == [] {
      NothingByClass(fs, 5);
    } else {
      ReplayOnce(fs, es[1..]);
      ByClassMore(fs, es, 5);
      hide ByClass;
    }
  }

  lemma {:induction false} NothingByClass(fs: Fs, c: nat)
    ensures ByClass(fs, [], c) == []
  {
    if c > 0 {
      NothingByClass(fs, c - 1);
    }
  }

  /** e is once more in a than in b, or once more in o than in r, or in neither. */
  lemma BagsOfTwo(a: seq<Entry>, o: seq<Entry>, b: seq<Entry>, r: seq<Entry>, e: Entry, inA: bool, inO: bool)
    requires multiset(a) == multiset(b) + if inA then multiset{e} else multiset{}
    requires multiset(o) == multiset(r) + if inO then multiset{e} else multiset{}
    requires !(inA && inO)
    ensures multiset(a + o) == multiset(b + r) + if inA || inO then multiset{e} else multiset{}
  {
    assert multiset(a + o) == multiset(a) + multiset(o) && multiset(b + r) == multiset(b) + multiset(r);
  }

  lemma OnlyMore(fs: Fs, es: seq<Entry>, c: int)
    requires es != []
    ensures multiset(Only(fs, es, c))
         == multiset(Only(fs, es[1..], c)) + if ClassOf(fs, es[0]) == c then multiset{es[0]} else multiset{}
  {
  }

  lemma {:induction false} ByClassMore(fs: Fs, es: seq<Entry>, c: nat)
    requires es != []
    ensures multiset(ByClass(fs, es, c))
         == multiset(ByClass(fs, es[1..], c)) + if 0 <= ClassOf(fs, es[0]) < c then multiset{es[0]} else multiset{}
  {
    hide Only, ClassOf;
    if c > 0 {
      var a, b := ByClass(fs, es, c - 1), ByClass(fs, es[1..], c - 1);
      var o, r := Only(fs, es, c - 1), Only(fs, es[1..], c - 1);
      ByClassMore(fs, es, c - 1);
      OnlyMore(fs, es, c - 1);
      assert ByClass(fs, es, c) == a + o && ByClass(fs, es[1..], c) == b + r;
      hide ByClass;
      BagsOfTwo(a, o, b, r, es[0], 0 <= ClassOf(fs, es[0]) < c - 1, ClassOf(fs, es[0]) == c - 1);
    }
  }

  // ---------- the order, without the classes ----------

  predicate IsBitmap(fs: Fs, e: Entry) {
    fs.describe(e.fsBlock) == Some(InodeBitmap) || fs.describe(e.fsBlock) == Some(BlockBitmap)
  }

  /** A data block that has no inode. */
  predicate IsLoose(fs: Fs, e: Entry) { fs.describe(e.fsBlock) == Some(DataBlock) && !fs.inode(e.fsBlock) }

  predicate IsIndirect(fs: Fs, e: Entry) {
    fs.describe(e.fsBlock) == Some(DataBlock) && fs.inode(e.fsBlock) && fs.level(e.fsBlock)
  }

  predicate IsTable(fs: Fs, e: Entry) { fs.describe(e.fsBlock) == Some(InodeTable) }

  /** A data block with an inode that is no indirect block. */
  predicate IsContent(fs: Fs, e: Entry) {
    fs.describe(e.fsBlock) == Some(DataBlock) && fs.inode(e.fsBlock) && !fs.level(e.fsBlock)
  }

  predicate IsKnown(fs: Fs, e: Entry) {
    IsBitmap(fs, e) || IsLoose(fs, e) || IsIndirect(fs, e) || IsTable(fs, e) || IsContent(fs, e)
  }

  /** a must not come after b. */
  predicate GoesFirst(fs: Fs, a: Entry, b: Entry) {
    || (IsBitmap(fs, a) && !IsBitmap(fs, b))
    || (IsLoose(fs, a) && (IsIndirect(fs, b) || IsTable(fs, b) || IsContent(fs, b)))
    || (IsIndirect(fs, a) && (IsTable(fs, b) || IsContent(fs, b)))
    || (IsTable(fs, a) && IsContent(fs, b))
  }

  function Select(es: seq<Entry>, p: Entry -> bool): seq<Entry> {
    if es == [] then [] else (if p(es[0]) then [es[0]] else []) + Select(es[1..], p)
  }

  /** r replays es: bitmaps, then data blocks without an inode, indirect blocks, inode tables, and the other data
      blocks, the blocks of each kind in the order of their tags, each as often as it has tags, and no others. */
  ghost predicate Replays(fs: Fs, es: seq<Entry>, r: seq<Entry>) {
    && (forall i, j :: 0 <= i < j < |r| ==> !GoesFirst(fs, r[j], r[i]))
    && (forall e :: multiset(r)[e] == if IsKnown(fs, e) then multiset(es)[e] else 0)
    && Select(r, e => IsBitmap(fs, e)) == Select(es, e => IsBitmap(fs, e))
    && Select(r, e => IsLoose(fs, e)) == Select(es, e => IsLoose(fs, e))
    && Select(r, e => IsIndirect(fs, e)) == Select(es, e => IsIndirect(fs, e))
    && Select(r, e => IsTable(fs, e)) == Select(es, e => IsTable(fs, e))
    && Select(r, e => IsContent(fs, e)) == Select(es, e => IsContent(fs, e))
  }

  lemma {:induction false} SelectJoin(a: seq<Entry>, b: seq<Entry>, p: Entry -> bool)
    ensures Select(a + b, p) == Select(a, p) + Select(b, p)
  {
    if a == [] {
      assert a + b == b;
    } else {
      assert (a + b)[1..] == a[1..] + b;
      SelectJoin(a[1..], b, p);
    }
  }

  lemma SelectFirst(x: Entry, es: seq<Entry>, p: Entry -> bool)
    ensures Select([x] + es, p) == (if p(x) then [x] else []) + Select(es, p)
  {
    assert ([x] + es)[1..] == es;
  }

  lemma {:induction false} SelectOnly(fs: Fs, es: seq<Entry>, p: Entry -> bool, c: int, d: int)
    requires forall e :: p(e) ==> ClassOf(fs, e) == c
    ensures Select(Only(fs, es, d), p) == if c == d then Select(es, p) else []
  {
    hide ClassOf;
    if es != [] {
      SelectOnly(fs, es[1..], p, c, d);
      SelectFirst(es[0], Only(fs, es[1..], d), p);
      assert [] + Only(fs, es[1..], d) == Only(fs, es[1..], d);
    }
  }

  lemma {:induction false} SelectByClass(fs: Fs, es: seq<Entry>, p: Entry -> bool, c: int, n: nat)
    requires forall e :: p(e) ==> ClassOf(fs, e) == c
    ensures Select(ByClass(fs, es, n), p) == if 0 <= c < n then Select(es, p) else []
  {
    hide ClassOf;
    if n > 0 {
      SelectByClass(fs, es, p, c, n - 1);
      SelectOnly(fs, es, p, c, n - 1);
      SelectJoin(ByClass(fs, es, n - 1), Only(fs, es, n - 1), p);
    }
  }

  lemma {:induction false} ClassifiedCount(fs: Fs, es: seq<Entry>, e: Entry)
    ensures multiset(Classified(fs, es))[e] == if ClassOf(fs, e) >= 0 then multiset(es)[e] else 0
  {
    hide ClassOf;
    if es != [] {
      assert es == [es[0]] + es[1..];
      ClassifiedCount(fs, es[1..], e);
    }
  }

  lemma Kinds(fs: Fs, e: Entry)
    ensures ClassOf(fs, e) == if IsBitmap(fs, e) then 0 else if IsLoose(fs, e) then 1 else if IsIndirect(fs, e) then 2
      else if IsTable(fs, e) then 3 else if IsContent(fs, e) then 4 else -1
  {
  }

  /** What a commit replays. */
  lemma ReplayOrder(fs: Fs, es: seq<Entry>)
    ensures Replays(fs, es, ByClass(fs, es, 5))
  {
    hide ClassOf, Only, ByClass, Classified, Select;
    var r := ByClass(fs, es, 5);
    forall e ensures ClassOf(fs, e) == if IsBitmap(fs, e) then 0 else if IsLoose(fs, e) then 1
      else if IsIndirect(fs, e) then 2 else if IsTable(fs, e) then 3 else if IsContent(fs, e) then 4 else -1
    {
      Kinds(fs, e);
    }
    ReplaySorted(fs, es, 5);
    ReplayOnce(fs, es);
    forall e ensures multiset(r)[e] == if IsKnown(fs, e) then multiset(es)[e] else 0 {
      ClassifiedCount(fs, es, e);
    }
    SelectByClass(fs, es, e => IsBitmap(fs, e), 0, 5);
    SelectByClass(fs, es, e => IsLoose(fs, e), 1, 5);
    SelectByClass(fs, es, e => IsIndirect(fs, e), 2, 5);
    SelectByClass(fs, es, e => IsTable(fs, e), 3, 5);
    SelectByClass(fs, es, e => IsContent(fs, e), 4, 5);
  }
}
