/** handle_list_file: trace buffers of one device and CPU in, whole records out, the rest carried over in place. */
module ListFile {

  import opened Words
  import opened Records

  /** A buffer as a tracer filled it: the first len bytes of buf. */
  class TraceBuf {
    var buf: array<Byte>
    var len: nat

    ghost predicate Fits(bufSize: nat)
      reads this
    {
      len <= buf.Length && bufSize <= buf.Length
    }

    ghost function Data(): (s: seq<Byte>)
      requires len <= buf.Length
      reads this, buf
    {
      buf[..len]
    }
  }

  /** The output of one stream: bytes written to its file, and its event counter. */
  class Output {
    var written: seq<Byte>
    var nevents: nat
  }

  class Head {
    var prev: TraceBuf?
  }

  ghost function Carried(prev: TraceBuf?): (s: seq<Byte>)
    requires prev != null ==> prev.len <= prev.buf.Length
    reads prev, if prev == null then {} else {prev.buf}
  {
    if prev == null then [] else prev.Data()
  }

  /** No two buffers of the list share their bytes, and none shares with prev. */
  ghost predicate Apart(prev: TraceBuf?, list: seq<TraceBuf>)
    reads prev, list
  {
    && (forall i, j :: 0 <= i < j < |list| ==> list[i] != list[j] && list[i].buf != list[j].buf)
    && (prev != null ==> forall i :: 0 <= i < |list| ==> list[i] != prev && list[i].buf != prev.buf)
  }

  ghost predicate AllFit(bufSize: nat, list: seq<TraceBuf>)
    reads list
  {
    forall i :: 0 <= i < |list| ==> list[i].Fits(bufSize)
  }

  ghost function Contents(list: seq<TraceBuf>): (r: seq<seq<Byte>>)
    requires AllFit(0, list)
    reads list, set b | b in list :: b.buf
    ensures |r| == |list| && forall i :: 0 <= i < |list| ==> r[i] == list[i].Data()
  {
    seq(|list|, i requires 0 <= i < |list| reads list, set b | b in list :: b.buf
                  requires AllFit(0, list) => list[i].Data())
  }

  /** All that a call may write to. */
  ghost function Footprint(out: Output, prev: TraceBuf?, list: seq<TraceBuf>): (r: set<object>)
    reads prev, list
    ensures out in r && (prev != null ==> prev in r && prev.buf in r)
    ensures forall i :: 0 <= i < |list| ==> list[i] in r && list[i].buf in r
  {
    if list == [] then
      var o: object := out;
      if prev == null then {o} else
        var p: TraceBuf := prev;
        {o} + {p as object} + {p.buf as object}
    else
      Footprint(out, prev, list[1..]) + {list[0], list[0].buf}
  }

  /** Tack the bytes of tbp onto the tail of prev, growing prev when they do not fit. */
  method TbCombine(bufSize: nat, prev: TraceBuf, tbp: TraceBuf)
    requires prev.Fits(bufSize) && tbp.Fits(bufSize) && prev != tbp && prev.buf != tbp.buf
    modifies prev, prev.buf
    ensures prev.Fits(bufSize) && (prev.buf == old(prev.buf) || fresh(prev.buf))
    ensures prev.Data() == old(prev.Data()) + old(tbp.Data())
  {
    var totLen := prev.len + tbp.len;
    if totLen > bufSize {
      var grown := new Byte[totLen];
      forall i | 0 <= i < prev.len {
        grown[i] := prev.buf[i];
      }
      prev.buf := grown;
    }
    forall i | 0 <= i < tbp.len {
      prev.buf[prev.len + i] := tbp.buf[i];
    }
    prev.len := totLen;
  }

  /** The scan for whole records. */
  method Scan(tbp: TraceBuf) returns (off: nat, nevents: nat)
    requires tbp.len <= tbp.buf.Length
    ensures off == Passed(tbp.Data()) && nevents == Count(tbp.Data())
  {
    off, nevents := 0, 0;
    ghost var s := tbp.Data();
    assert s[0..] == s;
    while off + HEADER <= tbp.len
      invariant off <= tbp.len
      invariant Passed(s) == off + Passed(s[off..]) && Count(s) == nevents + Count(s[off..])
    {
      var tLen := HEADER + tbp.buf[off + PDU_LEN] as int + 256 * (tbp.buf[off + PDU_LEN + 1] as int);
      assert RecordLength(s[off..]) == tLen;
      if off + tLen > tbp.len {
        break;
      }
      assert s[off..][tLen..] == s[off + tLen..];
      off := off + tLen;
      nevents := nevents + 1;
    }
  }

  /** Move the bytes from off on to the beginning of the buffer. */
  method Shift(tbp: TraceBuf, off: nat)
    requires off <= tbp.len <= tbp.buf.Length
    modifies tbp, tbp.buf
    ensures tbp.buf == old(tbp.buf) && tbp.len == old(tbp.len) - off
    ensures tbp.Data() == old(tbp.Data()[off..])
  {
    tbp.len := tbp.len - off;
    forall i | 0 <= i < tbp.len {
      tbp.buf[i] := tbp.buf[off + i];
    }
  }

  /** One buffer through the loop body: the whole records go out, the rest moves to the front of the buffer. */
  method HandleBuf(bufSize: nat, prev0: TraceBuf?, next: TraceBuf, out: Output) returns (prev: TraceBuf?)
    requires next.Fits(bufSize)
    requires prev0 != null ==> prev0.Fits(bufSize) && prev0 != next && prev0.buf != next.buf
    modifies out, next, next.buf, prev0, if prev0 == null then {} else {prev0.buf}
    ensures prev != null ==> prev.Fits(bufSize) && prev in {prev0, next}
    ensures prev != null ==>
      || fresh(prev.buf) || prev.buf == old(next.buf)
      || (prev0 != null && prev.buf == old(prev0.buf))
    ensures Flow(out.written, out.nevents, Carried(prev))
         == Step(old(Flow(out.written, out.nevents, Carried(prev0))), old(next.Data()))
  {
    hide Passed, Count;
    ghost var s := Carried(prev0) + next.Data();
    var tbp := next;
    if prev0 != null {
      TbCombine(bufSize, prev0, next);
      tbp := prev0;
    }
    assert tbp.Data() == s;
    var off, nevents := Scan(tbp);
    out.nevents := out.nevents + nevents;
    if off > 0 {
      assert tbp.buf[..off] == s[..off];
      out.written := out.written + tbp.buf[..off];
      if off == tbp.len {
        prev := null;
      } else {
        Shift(tbp, off);
        prev := tbp;
      }
    } else {
      prev := tbp;
    }
  }

  /** The buffers of list from k on are as they came, and apart from each other and from prev. */
  ghost predicate Waiting(bufSize: nat, prev: TraceBuf?, list: seq<TraceBuf>, k: nat,
                          arrays: seq<array<Byte>>, data: seq<seq<Byte>>)
    requires |arrays| == |data| == |list|
    reads prev, list, arrays, if prev == null then {} else {prev.buf}
  {
    && (forall i, j :: 0 <= i < j < |list| ==> list[i] != list[j] && arrays[i] != arrays[j])
    && (forall i :: k <= i < |list| ==> list[i].buf == arrays[i] && list[i].Fits(bufSize) && list[i].Data() == data[i])
    && (prev != null ==> forall i :: k <= i < |list| ==> list[i] != prev && arrays[i] != prev.buf)
  }

  /** Take the k-th buffer. */
  method TakeBuf(bufSize: nat, prev0: TraceBuf?, list: seq<TraceBuf>, k: nat, out: Output,
                 ghost arrays: seq<array<Byte>>, ghost data: seq<seq<Byte>>) returns (prev: TraceBuf?)
    requires |data| == |arrays| == |list| && k < |list| && Waiting(bufSize, prev0, list, k, arrays, data)
    requires prev0 != null ==> prev0.Fits(bufSize)
    modifies out, list[k], arrays[k], prev0, if prev0 == null then {} else {prev0.buf}
    ensures Waiting(bufSize, prev, list, k + 1, arrays, data)
    ensures prev != null ==> prev.Fits(bufSize)
    ensures prev != null ==> prev in {prev0, list[k]}
    ensures prev != null ==> fresh(prev.buf) || prev.buf == arrays[k] || (prev0 != null && prev.buf == old(prev0.buf))
    ensures Flow(out.written, out.nevents, Carried(prev))
         == Step(old(Flow(out.written, out.nevents, Carried(prev0))), data[k])
  {
    hide Step, TraceBuf.Data;
    prev := HandleBuf(bufSize, prev0, list[k], out);
  }

  /** The loop over the list; footprint holds every object it may write to. */
  method TakeList(bufSize: nat, prev0: TraceBuf?, list: seq<TraceBuf>, out: Output, ghost footprint: set<object>,
                  ghost arrays: seq<array<Byte>>, ghost data: seq<seq<Byte>>) returns (prev: TraceBuf?, taken: nat)
    requires |data| == |arrays| == |list| && Waiting(bufSize, prev0, list, 0, arrays, data)
    requires prev0 != null ==> prev0.Fits(bufSize) && prev0 in footprint && prev0.buf in footprint
    requires out in footprint && forall i :: 0 <= i < |list| ==> list[i] in footprint && arrays[i] in footprint
    modifies footprint
    ensures taken == |list|
    ensures prev != null ==> prev.Fits(bufSize) && (prev == prev0 || prev in list)
    ensures Flow(out.written, out.nevents, Carried(prev))
         == Steps(old(Flow(out.written, out.nevents, Carried(prev0))), data)
  {
    hide Step, Steps, TraceBuf.Data, Waiting;
    prev, taken := prev0, 0;
    ghost var start := Flow(out.written, out.nevents, Carried(prev));
    assert data[0..] == data;
    while taken < |list|
      invariant taken <= |list|
      invariant Waiting(bufSize, prev, list, taken, arrays, data)
      invariant prev != null ==> prev.Fits(bufSize) && prev in footprint && (prev == prev0 || prev in list)
      invariant prev != null ==> fresh(prev.buf) || prev.buf in footprint
      invariant Steps(Flow(out.written, out.nevents, Carried(prev)), data[taken..]) == Steps(start, data)
    {
      StepsOnce(Flow(out.written, out.nevents, Carried(prev)), data, taken);
      prev := TakeBuf(bufSize, prev, list, taken, out, arrays, data);
      taken := taken + 1;
    }
    StepsDone(Flow(out.written, out.nevents, Carried(prev)), data);
  }

  /** The list is taken buffer by buffer; what is written, counted and carried is what Steps says. */
  method HandleListFile(bufSize: nat, hd: Head, list: seq<TraceBuf>, out: Output) returns (entriesHandled: nat)
    requires AllFit(bufSize, list) && Apart(hd.prev, list)
    requires hd.prev != null ==> hd.prev.Fits(bufSize)
    modifies hd, Footprint(out, hd.prev, list)
    ensures entriesHandled == |list|
    ensures hd.prev != null ==> hd.prev.Fits(bufSize)
    ensures hd.prev == null || hd.prev == old(hd.prev) || hd.prev in list
    ensures Flow(out.written, out.nevents, Carried(hd.prev))
         == Steps(old(Flow(out.written, out.nevents, Carried(hd.prev))), old(Contents(list)))
  {
    hide Step, Steps, TraceBuf.Data;
    ghost var data, arrays := Contents(list), seq(|list|, i requires 0 <= i < |list| reads list => list[i].buf);
    ghost var footprint := Footprint(out, hd.prev, list);
    var prev;
    prev, entriesHandled := TakeList(bufSize, hd.prev, list, out, footprint, arrays, data);
    hd.prev := prev;
  }
}
