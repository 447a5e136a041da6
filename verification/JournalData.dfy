/** The blocks that a commit replays: the journal's copies, and what becomes of those that were escaped. */
module JournalData {

  import opened Words
  import opened JournalSpec

  const SIGNATURE: U32 := 0xc03b3998

  /** The number 0x98c93bc0 as a little-endian machine stores it. */
  const PATCH: seq<Byte> := [0xc0, 0x3b, 0xc9, 0x98]

  const ZERO: seq<Byte> := [0, 0, 0, 0]

  /** The block with w in place of its first word. */
  function WithWord(block: seq<Byte>, w: seq<Byte>): (r: seq<Byte>)
    requires |w| == 4
    ensures |r| == |block|
  {
    if |block| < 4 then block else w + block[4..]
  }

  function Patched(e: Entry, block: seq<Byte>): (r: seq<Byte>)
    ensures |r| == |block|
  {
    if Escaped(e) then WithWord(block, PATCH) else block
  }

  function BlockAt(blocks: seq<seq<Byte>>, pos: nat): seq<Byte> {
    if pos < |blocks| then blocks[pos] else []
  }

  /** What is passed to ext2_introspection: an entry, and the journal's copy of its block. */
  datatype Logged = Logged(e: Entry, data: seq<Byte>)

  /** The copies after e has been replayed: that of an escaped block has 0 in front again. */
  function Settled(blocks: seq<seq<Byte>>, e: Entry): (r: seq<seq<Byte>>)
    ensures |r| == |blocks| && forall i :: 0 <= i < |r| ==> |r[i]| == |blocks[i]|
  {
    if Escaped(e) && e.position < |blocks| then blocks[e.position := WithWord(blocks[e.position], ZERO)] else blocks
  }

  ghost function SettledAll(blocks: seq<seq<Byte>>, es: seq<Entry>): (r: seq<seq<Byte>>)
    ensures |r| == |blocks| && forall i :: 0 <= i < |r| ==> |r[i]| == |blocks[i]|
    decreases |es|
  {
    if es == [] then blocks else SettledAll(Settled(blocks, es[0]), es[1..])
  }

  /** The replay of es, one after the other. */
  ghost function WithData(blocks: seq<seq<Byte>>, es: seq<Entry>): (r: seq<Logged>)
    ensures |r| == |es| && forall i :: 0 <= i < |es| ==> r[i].e == es[i]
    decreases |es|
  {
    if es == [] then []
    else [Logged(es[0], Patched(es[0], BlockAt(blocks, es[0].position)))] + WithData(Settled(blocks, es[0]), es[1..])
  }

  ghost function EntriesOf(log: seq<Logged>): (r: seq<Entry>)
    ensures |r| == |log| && forall i :: 0 <= i < |log| ==> r[i] == log[i].e
  {
    seq(|log|, i requires 0 <= i < |log| => log[i].e)
  }

  /** What has been logged since log was was is the replay of es. */
  lemma LoggedSince(was: seq<Logged>, log: seq<Logged>, blocks: seq<seq<Byte>>, es: seq<Entry>)
    requires log == was + WithData(blocks, es)
    ensures EntriesOf(log[|was|..]) == es
  {
  }

  lemma {:induction false} ReplayJoin(blocks: seq<seq<Byte>>, a: seq<Entry>, b: seq<Entry>)
    ensures WithData(blocks, a + b) == WithData(blocks, a) + WithData(SettledAll(blocks, a), b)
    ensures SettledAll(blocks, a + b) == SettledAll(SettledAll(blocks, a), b)
    decreases |a|
  {
    if a == [] {
      assert a + b == b;
    } else {
      assert (a + b)[1..] == a[1..] + b;
      ReplayJoin(Settled(blocks, a[0]), a[1..], b);
      hide Settled, Patched;
    }
  }

  lemma ReplayOne(blocks: seq<seq<Byte>>, e: Entry)
    ensures WithData(blocks, [e]) == [Logged(e, Patched(e, BlockAt(blocks, e.position)))]
    ensures SettledAll(blocks, [e]) == Settled(blocks, e)
  {
    assert [e][1..] == [];
  }

  lemma ReplayNothing(blocks: seq<seq<Byte>>)
    ensures WithData(blocks, []) == [] && SettledAll(blocks, []) == blocks
  {
  }

  /** Entries with one copy agree on whether it is escaped. */
  ghost predicate Agree(es: seq<Entry>) {
    forall a, b :: a in es && b in es && a.position == b.position ==> (Escaped(a) <==> Escaped(b))
  }

  lemma PatchedSettled(blocks: seq<seq<Byte>>, e: Entry, x: Entry)
    requires e.position == x.position ==> (Escaped(e) <==> Escaped(x))
    ensures Patched(x, BlockAt(Settled(blocks, e), x.position)) == Patched(x, BlockAt(blocks, x.position))
  {
    if e.position == x.position && Escaped(x) && x.position < |blocks| && |blocks[x.position]| >= 4 {
      var b := blocks[x.position];
      assert (ZERO + b[4..])[4..] == b[4..];
    }
  }

  /** Then the replay of one does not show in the replay of another. */
  lemma {:induction false} EachPatched(blocks: seq<seq<Byte>>, es: seq<Entry>, all: seq<Entry>)
    requires Agree(all) && forall e :: e in es ==> e in all
    ensures forall i :: 0 <= i < |es| ==>
      WithData(blocks, es)[i].data == Patched(es[i], BlockAt(blocks, es[i].position))
    decreases |es|
  {
    hide Patched, BlockAt, Settled, Escaped;
    if es != [] {
      EachPatched(Settled(blocks, es[0]), es[1..], all);
      forall i | 0 < i < |es|
        ensures WithData(blocks, es)[i].data == Patched(es[i], BlockAt(blocks, es[i].position))
      {
        assert es[i] == es[1..][i - 1];
        PatchedSettled(blocks, es[0], es[i]);
      }
    }
  }

  predicate FirstZero(block: seq<Byte>) {
    |block| >= 4 && ReadU32(block, 0) == 0
  }

  lemma ZeroWord(block: seq<Byte>)
    requires |block| >= 4
    ensures FirstZero(WithWord(block, ZERO))
  {
  }

  lemma SettledOne(blocks: seq<seq<Byte>>, e: Entry, pos: nat)
    requires pos < |blocks| && |blocks[pos]| >= 4
    ensures var b := Settled(blocks, e)[pos];
      if Escaped(e) && e.position == pos then FirstZero(b) else b == blocks[pos]
  {
    hide FirstZero, WithWord, Escaped;
    ZeroWord(blocks[pos]);
  }

  /** After a replay the copies of escaped blocks begin with 0, and all others are as before. */
  lemma {:induction false} SettledWords(blocks: seq<seq<Byte>>, es: seq<Entry>, pos: nat)
    requires pos < |blocks| && |blocks[pos]| >= 4
    ensures if exists e :: e in es && Escaped(e) && e.position == pos then FirstZero(SettledAll(blocks, es)[pos])
            else SettledAll(blocks, es)[pos] == blocks[pos]
    decreases |es|
  {
    hide FirstZero, Escaped, Settled;
    if es != [] {
      SettledOne(blocks, es[0], pos);
      SettledWords(Settled(blocks, es[0]), es[1..], pos);
      assert forall e :: e in es <==> e == es[0] || e in es[1..];
    }
  }

  // ---------- escaping ----------

  /** How a block is logged: one that begins like a block of the journal's own has 0 there, and the flag. */
  predicate LoggedAs(block: seq<Byte>, e: Entry, copy: seq<Byte>)
    requires |block| >= 4
  {
    if ReadU32(block, 0) == SIGNATURE then Escaped(e) && copy == WithWord(block, ZERO)
    else !Escaped(e) && copy == block
  }

  lemma PatchedWord(block: seq<Byte>)
    requires |block| >= 4
    ensures ReadU32(WithWord(WithWord(block, ZERO), PATCH), 0) == 0xc03bc998
  {
  }

  /** The replay gives the block that was logged exactly if it did not have to be escaped: the word that is
      put in is not the signature. */
  lemma EscapeUndoneIff(block: seq<Byte>, e: Entry, copy: seq<Byte>)
    requires |block| >= 4 && LoggedAs(block, e, copy)
    ensures Patched(e, copy) == block <==> ReadU32(block, 0) != SIGNATURE
  {
    PatchedWord(block);
  }

  // ---------- what was written ----------

  /** A write of journal block pos. */
  datatype BlockWrite = BlockWrite(pos: nat, buf: seq<Byte>)

  /** The last write to its position. */
  ghost predicate Last(ws: seq<BlockWrite>, i: nat)
    requires i < |ws|
  {
    forall j :: i < j < |ws| ==> ws[j].pos != ws[i].pos
  }

  /** Each position that has been written holds what was written there last. */
  ghost predicate Holding(blocks: seq<seq<Byte>>, blockSize: nat, ws: seq<BlockWrite>) {
    forall i :: 0 <= i < |ws| && Last(ws, i) ==>
      && ws[i].pos < |blocks| && blockSize == |ws[i].buf| <= |blocks[ws[i].pos]|
      && blocks[ws[i].pos][..blockSize] == ws[i].buf
  }

  lemma HoldingMore(blocks: seq<seq<Byte>>, blocks': seq<seq<Byte>>, blockSize: nat, ws: seq<BlockWrite>, w: BlockWrite)
    requires Holding(blocks, blockSize, ws) && |blocks'| == |blocks| && w.pos < |blocks| && |w.buf| == blockSize
    requires blockSize <= |blocks'[w.pos]| && blocks'[w.pos][..blockSize] == w.buf
    requires forall i :: 0 <= i < |blocks| && i != w.pos ==> blocks'[i] == blocks[i]
    ensures Holding(blocks', blockSize, ws + [w])
  {
    var t := ws + [w];
    forall i | 0 <= i < |t| && Last(t, i)
      ensures t[i].pos < |blocks'| && blockSize == |t[i].buf| <= |blocks'[t[i].pos]|
        && blocks'[t[i].pos][..blockSize] == t[i].buf
    {
      if i < |ws| {
        assert t[|ws|] == w;
        assert t[i] == ws[i] && w.pos != ws[i].pos;
        assert forall j :: i < j < |ws| ==> t[j] == ws[j];
        assert Last(ws, i);
      }
    }
  }

  lemma NothingHeld(blocks: seq<seq<Byte>>, blockSize: nat)
    ensures Holding(blocks, blockSize, [])
  {
  }

  /** The copies are those of the entries, each at the place of its own entry. */
  ghost predicate InPlace(ws: seq<BlockWrite>, es: seq<Entry>) {
    && |ws| == |es| && (forall i :: 0 <= i < |es| ==> ws[i].pos == es[i].position)
    && (forall i, j :: 0 <= i < j < |es| ==> es[i].position != es[j].position)
  }

  /** x is one of the entries, with the copy that was written for it. */
  ghost predicate CopyOf(x: Logged, ws: seq<BlockWrite>, es: seq<Entry>, blockSize: nat)
    requires |ws| == |es|
  {
    exists i :: 0 <= i < |es| && x.e == es[i] &&
      blockSize <= |x.data| && x.data[..blockSize] == Patched(es[i], ws[i].buf)
  }

  lemma PatchedFront(e: Entry, block: seq<Byte>, n: nat)
    requires 4 <= n <= |block|
    ensures Patched(e, block)[..n] == Patched(e, block[..n])
  {
  }

  lemma ReplaysCopies(blocks: seq<seq<Byte>>, blockSize: nat, ws: seq<BlockWrite>, fs: Fs, es: seq<Entry>)
    requires Holding(blocks, blockSize, ws) && InPlace(ws, es) && 4 <= blockSize
    ensures forall x :: x in WithData(blocks, ByClass(fs, es, 5)) ==> CopyOf(x, ws, es, blockSize)
  {
    ByClassIn(fs, es, 5);
    var sorted := ByClass(fs, es, 5);
    hide ByClass, Patched, Escaped;
    EachPatched(blocks, sorted, es);
    forall x | x in WithData(blocks, sorted) ensures CopyOf(x, ws, es, blockSize) {
      var k :| 0 <= k < |sorted| && WithData(blocks, sorted)[k] == x;
      assert sorted[k] in es;
      var i :| 0 <= i < |es| && es[i] == sorted[k];
      assert Last(ws, i);
      PatchedFront(x.e, blocks[ws[i].pos], blockSize);
    }
  }

  /** So the replay of the i-th entry gives the block that was logged exactly if that was not escaped. */
  lemma RestoredIff(x: Logged, ws: seq<BlockWrite>, es: seq<Entry>, blockSize: nat, i: nat, block: seq<Byte>)
    requires InPlace(ws, es) && i < |es| && x.e == es[i] && CopyOf(x, ws, es, blockSize)
    requires |block| >= 4 && LoggedAs(block, es[i], ws[i].buf)
    ensures x.data[..blockSize] == block <==> ReadU32(block, 0) != SIGNATURE
  {
    hide Patched, LoggedAs, ReadU32;
    EscapeUndoneIff(block, es[i], ws[i].buf);
  }

  lemma {:induction false} ByClassIn(fs: Fs, es: seq<Entry>, c: nat)
    ensures forall e :: e in ByClass(fs, es, c) ==> e in es
  {
    if c > 0 {
      ByClassIn(fs, es, c - 1);
      OnlyIn(fs, es, c - 1);
    }
  }

  lemma {:induction false} OnlyIn(fs: Fs, es: seq<Entry>, c: int)
    ensures forall e :: e in Only(fs, es, c) ==> e in es
  {
    if es != [] {
      OnlyIn(fs, es[1..], c);
    }
  }
}
