/** The trace stream of one device and CPU: variable-length records, and the longest part made of whole ones. */
module Records {

  import opened Words

  /** sizeof(struct blk_io_trace), with the two bytes of padding that follow its last field. */
  const HEADER := 56

  /** Where that field, pdu_len, is: two bytes, in the order of a little-endian machine. */
  const PDU_LEN := 52

  /** Length of the record at the start of s. */
  function RecordLength(s: seq<Byte>): (n: nat)
    requires |s| >= HEADER
    ensures n >= HEADER
  {
    HEADER + s[PDU_LEN] as int + 256 * (s[PDU_LEN + 1] as int)
  }

  /** s starts with a whole record. */
  predicate Starts(s: seq<Byte>) {
    |s| >= HEADER && RecordLength(s) <= |s|
  }

  /** s consists of whole records. */
  ghost predicate Whole(s: seq<Byte>)
    decreases |s|
  {
    s != [] ==> Starts(s) && Whole(s[RecordLength(s)..])
  }

  /** How many bytes of s the scan for whole records passes, and how many records. */
  ghost function Passed(s: seq<Byte>): (n: nat)
    ensures n <= |s|
    decreases |s|
  {
    if Starts(s) then RecordLength(s) + Passed(s[RecordLength(s)..]) else 0
  }

  ghost function Count(s: seq<Byte>): nat
    decreases |s|
  {
    if Starts(s) then 1 + Count(s[RecordLength(s)..]) else 0
  }

  lemma StartsStill(s: seq<Byte>, t: seq<Byte>)
    requires Starts(s)
    ensures Starts(s + t) && RecordLength(s + t) == RecordLength(s)
    ensures (s + t)[RecordLength(s)..] == s[RecordLength(s)..] + t
  {
  }

  /** The part the scan passes is made of whole records, and no longer part from the start is. */
  lemma {:induction false} PassedIsLongest(s: seq<Byte>, k: nat)
    requires k <= |s|
    ensures Whole(s[..Passed(s)])
    ensures Whole(s[..k]) ==> k <= Passed(s)
    decreases |s|
  {
    if Starts(s) {
      var n := RecordLength(s);
      var p, r := Passed(s), s[n..];
      PassedIsLongest(r, if k < n then 0 else k - n);
      assert s[..p][n..] == r[..p - n];
      assert RecordLength(s[..p]) == n;
      if Whole(s[..k]) && k > 0 {
        assert RecordLength(s[..k]) == n <= k;
        assert s[..k][n..] == r[..k - n];
      }
    } else if k >= HEADER {
      assert RecordLength(s[..k]) == RecordLength(s);
    }
  }

  /** Scanning what is left together with more bytes picks up where the first scan stopped. */
  lemma {:induction false} Resume(s: seq<Byte>, t: seq<Byte>)
    ensures Passed(s + t) == Passed(s) + Passed(s[Passed(s)..] + t)
    ensures Count(s + t) == Count(s) + Count(s[Passed(s)..] + t)
    decreases |s|
  {
    if Starts(s) {
      var n := RecordLength(s);
      StartsStill(s, t);
      Resume(s[n..], t);
      assert s[n..][Passed(s[n..])..] == s[Passed(s)..];
    } else {
      assert s[0..] == s;
    }
  }

  // ---------- buffers ----------

  ghost function Join(bufs: seq<seq<Byte>>): seq<Byte> {
    if bufs == [] then [] else bufs[0] + Join(bufs[1..])
  }

  lemma {:induction false} JoinSplit(a: seq<seq<Byte>>, b: seq<seq<Byte>>)
    ensures Join(a + b) == Join(a) + Join(b)
  {
    if a == [] {
      assert a + b == b;
    } else {
      assert (a + b)[1..] == a[1..] + b;
      JoinSplit(a[1..], b);
    }
  }

  /** The state between two buffers: what has been written, the records counted, and what is carried over. */
  datatype Flow = Flow(written: seq<Byte>, nevents: nat, carry: seq<Byte>)

  /** One buffer through the loop body of handle_list_file. */
  ghost function Step(f: Flow, buf: seq<Byte>): Flow {
    var s := f.carry + buf;
    Flow(f.written + s[..Passed(s)], f.nevents + Count(s), s[Passed(s)..])
  }

  ghost function Steps(f: Flow, bufs: seq<seq<Byte>>): Flow
    decreases |bufs|
  {
    if bufs == [] then f else Steps(Step(f, bufs[0]), bufs[1..])
  }

  lemma StepsOnce(f: Flow, bufs: seq<seq<Byte>>, k: nat)
    requires k < |bufs|
    ensures Steps(f, bufs[k..]) == Steps(Step(f, bufs[k]), bufs[k + 1..])
  {
    assert bufs[k..][1..] == bufs[k + 1..];
  }

  lemma StepsDone(f: Flow, bufs: seq<seq<Byte>>)
    ensures Steps(f, bufs[|bufs|..]) == f
  {
  }

  lemma {:induction false} StepsSplit(f: Flow, a: seq<seq<Byte>>, b: seq<seq<Byte>>)
    ensures Steps(f, a + b) == Steps(Steps(f, a), b)
    decreases |a|
  {
    if a == [] {
      assert a + b == b;
    } else {
      assert (a + b)[1..] == a[1..] + b;
      StepsSplit(Step(f, a[0]), a[1..], b);
    }
  }

  /** One call of handle_list_file after the other, each with its own list of buffers. */
  ghost function Calls(f: Flow, lists: seq<seq<seq<Byte>>>): Flow
    decreases |lists|
  {
    if lists == [] then f else Calls(Steps(f, lists[0]), lists[1..])
  }

  ghost function Flat(lists: seq<seq<seq<Byte>>>): seq<seq<Byte>> {
    if lists == [] then [] else lists[0] + Flat(lists[1..])
  }

  /** How the buffers are grouped into calls does not matter either. */
  lemma {:induction false} CallsDoNotMatter(f: Flow, lists: seq<seq<seq<Byte>>>)
    ensures Calls(f, lists) == Steps(f, Flat(lists))
    decreases |lists|
  {
    if lists != [] {
      StepsSplit(f, lists[0], Flat(lists[1..]));
      CallsDoNotMatter(Steps(f, lists[0]), lists[1..]);
    }
  }

  /** The state the whole stream s leads to when it comes in one piece. */
  ghost function InOnePiece(s: seq<Byte>): Flow {
    Step(Flow([], 0, []), s)
  }

  lemma NothingBefore(s: seq<Byte>)
    ensures InOnePiece(s) == Flow(s[..Passed(s)], Count(s), s[Passed(s)..])
  {
    hide Passed, Count;
    PrefixNothing(s);
    PrefixNothing(s[..Passed(s)]);
  }

  lemma PrefixNothing(s: seq<Byte>)
    ensures [] + s == s
  {
  }

  /** However the stream is cut into buffers, what is written, counted and carried over in the end is the same. */
  lemma {:induction false} CutsDoNotMatter(bufs: seq<seq<Byte>>)
    ensures Steps(InOnePiece([]), bufs) == InOnePiece(Join(bufs))
    decreases |bufs|
  {
    if bufs != [] {
      var n := |bufs| - 1;
      var front, last := bufs[..n], bufs[n];
      assert bufs == front + [last];
      StepsSplit(InOnePiece([]), front, [last]);
      JoinSplit(front, [last]);
      assert Join([last]) == last;
      CutsDoNotMatter(front);
      NextStep(Join(front), last);
    }
  }

  lemma NextStep(s: seq<Byte>, t: seq<Byte>)
    ensures Step(InOnePiece(s), t) == InOnePiece(s + t)
  {
    hide Passed, Count;
    Resume(s, t);
    NothingBefore(s);
    NothingBefore(s + t);
    Cut(s, t, Passed(s), Passed(s[Passed(s)..] + t));
  }

  lemma Cut(s: seq<Byte>, t: seq<Byte>, p: nat, q: nat)
    requires p <= |s| && q <= |s[p..] + t|
    ensures (s + t)[..p + q] == s[..p] + (s[p..] + t)[..q]
    ensures (s + t)[p + q..] == (s[p..] + t)[q..]
  {
    assert s + t == s[..p] + (s[p..] + t);
  }

  /** Together: written is the longest prefix of the stream made of whole records, its records are counted,
      and the carried-over bytes are exactly the rest. */
  lemma Reframed(bufs: seq<seq<Byte>>)
    ensures var f, s := Steps(InOnePiece([]), bufs), Join(bufs);
      && f.written + f.carry == s && Whole(f.written) && f.nevents == Count(f.written)
      && forall k :: 0 <= k <= |s| && Whole(s[..k]) ==> k <= |f.written|
  {
    hide Passed, Whole, Count, Steps, Join;
    CutsDoNotMatter(bufs);
    var s := Join(bufs);
    NothingBefore(s);
    var p := Passed(s);
    assert s == s[..p] + s[p..];
    forall k | 0 <= k <= |s| && Whole(s[..k]) ensures k <= p {
      PassedIsLongest(s, k);
    }
    PassedIsLongest(s, 0);
    CountOfPassed(s);
  }

  lemma {:induction false} CountOfPassed(s: seq<Byte>)
    ensures Count(s[..Passed(s)]) == Count(s)
    decreases |s|
  {
    if Starts(s) {
      var n, p := RecordLength(s), Passed(s);
      CountOfPassed(s[n..]);
      assert s[..p][n..] == s[n..][..p - n];
      assert RecordLength(s[..p]) == n;
    }
  }

  // ---------- records as they are written ----------

  /** struct blk_io_trace, and the pdu_len bytes that follow it. */
  datatype Trace = Trace(
    magic: U32, sequence: U32, time: U64, sector: U64, bytes: U32, action: U32, pid: U32, device: U32, cpu: U32,
    error: U16, vecCount: U16, seqNo: U32, padding: (Byte, Byte), pdu: seq<Byte>)

  predicate PduFits(t: Trace) { |t.pdu| < 0x1_0000 }

  /** The n bytes of x, in the order of a little-endian machine. */
  function Le(x: nat, n: nat): (r: seq<Byte>)
    ensures |r| == n
  {
    if n == 0 then [] else [x % 256] + Le(x / 256, n - 1)
  }

  function Fields(t: Trace): seq<Byte> {
    Le(t.magic, 4) + Le(t.sequence, 4) + Le(t.time, 8) + Le(t.sector, 8) + Le(t.bytes, 4) + Le(t.action, 4)
    + Le(t.pid, 4) + Le(t.device, 4) + Le(t.cpu, 4) + Le(t.error, 2) + Le(t.vecCount, 2) + Le(t.seqNo, 4)
  }

  /** Field by field in the order of the struct, its padding, and the data. */
  function Written(t: Trace): seq<Byte> {
    Fields(t) + Le(|t.pdu|, 2) + [t.padding.0, t.padding.1] + t.pdu
  }

  function WrittenAll(ts: seq<Trace>): seq<Byte> {
    if ts == [] then [] else Written(ts[0]) + WrittenAll(ts[1..])
  }

  lemma FieldsLength(t: Trace)
    ensures |Fields(t)| == PDU_LEN
  {
    hide Le;
  }

  lemma TwoBytes(x: U16)
    ensures Le(x, 2) == [x % 256, x / 256]
  {
    assert Le(x / 256, 1) == [x / 256 % 256] + Le(x / 256 / 256, 0);
  }

  /** The scan sees where a record ends, whatever follows it ... */
  lemma WrittenStarts(t: Trace, rest: seq<Byte>)
    requires PduFits(t)
    ensures var s := Written(t) + rest;
      Starts(s) && RecordLength(s) == |Written(t)| == HEADER + |t.pdu| && s[RecordLength(s)..] == rest
  {
    FieldsLength(t);
    TwoBytes(|t.pdu|);
    hide Fields, Le;
    var s := Written(t) + rest;
    assert s == Fields(t) + ([|t.pdu| % 256, |t.pdu| / 256] + ([t.padding.0, t.padding.1] + t.pdu + rest));
    assert s[PDU_LEN] == |t.pdu| % 256 && s[PDU_LEN + 1] == |t.pdu| / 256;
    assert |t.pdu| == |t.pdu| / 256 * 256 + |t.pdu| % 256;
  }

  /** ... and a record that is cut off is none. */
  lemma CutOff(t: Trace, n: nat)
    requires PduFits(t) && n < |Written(t)|
    ensures !Starts(Written(t)[..n])
  {
    WrittenStarts(t, []);
    hide Written;
    var s := Written(t);
    assert s + [] == s;
    if n >= HEADER {
      assert RecordLength(s[..n]) == RecordLength(s);
    }
  }

  lemma {:induction false} WrittenPassed(ts: seq<Trace>, rest: seq<Byte>)
    requires (forall i :: 0 <= i < |ts| ==> PduFits(ts[i])) && !Starts(rest)
    ensures Passed(WrittenAll(ts) + rest) == |WrittenAll(ts)| && Count(WrittenAll(ts) + rest) == |ts|
    decreases |ts|
  {
    if ts == [] {
      assert WrittenAll(ts) + rest == rest;
    } else {
      WrittenPassed(ts[1..], rest);
      WrittenStarts(ts[0], WrittenAll(ts[1..]) + rest);
      hide Written, Starts, RecordLength;
      assert WrittenAll(ts) + rest == Written(ts[0]) + (WrittenAll(ts[1..]) + rest);
    }
  }

  /** However a stream of records, the last one cut off, is cut into buffers: the records that are whole are written
      as they were, and counted, and the cut-off one is carried over. */
  lemma WrittenReframed(bufs: seq<seq<Byte>>, ts: seq<Trace>, last: Trace, n: nat)
    requires (forall i :: 0 <= i < |ts| ==> PduFits(ts[i])) && PduFits(last) && n < |Written(last)|
    requires Join(bufs) == WrittenAll(ts) + Written(last)[..n]
    ensures Steps(InOnePiece([]), bufs) == Flow(WrittenAll(ts), |ts|, Written(last)[..n])
  {
    hide Written, WrittenAll, Starts, RecordLength, Passed, Count, Steps, Join;
    CutsDoNotMatter(bufs);
    NothingBefore(Join(bufs));
    CutOff(last, n);
    WrittenPassed(ts, Written(last)[..n]);
  }
}
