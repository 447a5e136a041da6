/** blktrace's mapped output: a window of the file that slides along as data comes in. */
module Window {

  import opened Words

  /** What setup_mmap can rely on: the page size, and the size of the window before the part that is cut off
      to make it start on a page. */
  predicate SizesOk(pagesize: nat, span: nat) {
    0 < pagesize <= span
  }

  /** size & (pagesize - 1), the page size being a power of two. */
  function InPage(size: nat, pagesize: nat): (r: nat)
    requires pagesize > 0
    ensures r < pagesize && r <= size
  {
    size % pagesize
  }

  predicate OnPage(start: nat, pagesize: nat)
    requires pagesize > 0
  {
    start % pagesize == 0
  }

  lemma PageStart(size: nat, pagesize: nat)
    requires pagesize > 0
    ensures OnPage(size - InPage(size, pagesize), pagesize)
  {
    var q, r := size / pagesize, size % pagesize;
    assert size - r == q * pagesize;
    Remainder(size - r, pagesize, q, 0);
  }

  /** struct mmap_info, and the file; the window shows the file from position fsSize - fsOff on. */
  class MmapInfo {
    const pagesize: nat
    const bufSize: nat
    const bufNr: nat
    var mapped: bool
    var fsSize: nat
    var fsMaxSize: nat
    var fsOff: nat
    var fsBufLen: nat
    var file: seq<Byte>
    ghost var received: seq<Byte>

    /** nr * buf_size */
    function Span(): nat {
      (if bufNr < 16 then 16 else bufNr) * bufSize
    }

    /** fs_off and fs_buf_len after setup_mmap. */
    function Ready(off: nat, len: nat, size: nat, maxlen: nat): (nat, nat)
      requires SizesOk(pagesize, Span())
    {
      if off + maxlen <= len then (off, len) else (InPage(size, pagesize), Span() - InPage(size, pagesize))
    }

    ghost predicate Valid()
      reads this
    {
      && SizesOk(pagesize, Span())
      && fsOff <= fsSize && fsSize - fsOff + fsBufLen <= fsMaxSize && fsSize <= fsMaxSize
      && OnPage(fsSize - fsOff, pagesize)
      && (mapped <==> fsBufLen > 0)
      && |file| == fsMaxSize && file[..fsSize] == received
    }

    constructor (pagesize: nat, bufSize: nat, bufNr: nat)
      requires SizesOk(pagesize, (if bufNr < 16 then 16 else bufNr) * bufSize)
      ensures Valid() && received == [] && !mapped
      ensures this.pagesize == pagesize && this.bufSize == bufSize && this.bufNr == bufNr
    {
      this.pagesize, this.bufSize, this.bufNr := pagesize, bufSize, bufNr;
      mapped, fsSize, fsMaxSize, fsOff, fsBufLen, file, received := false, 0, 0, 0, 0, [], [];
      new;
      assert OnPage(0, pagesize);
    }

    /** setup_mmap: there is room for maxlen bytes afterwards exactly if there was, or a new window has it. */
    method SetupMmap(maxlen: nat)
      requires Valid()
      modifies this
      ensures Valid() && received == old(received) && fsSize == old(fsSize) && file[..fsSize] == old(file[..fsSize])
      ensures (fsOff, fsBufLen) == Ready(old(fsOff), old(fsBufLen), old(fsSize), maxlen)
      ensures fsOff + maxlen <= fsBufLen <==>
        old(fsOff) + maxlen <= old(fsBufLen) || 2 * InPage(fsSize, pagesize) + maxlen <= Span()
    {
      hide Span, InPage, OnPage;
      if fsOff + maxlen > fsBufLen {
        mapped := false;
        PageStart(fsSize, pagesize);
        fsOff := InPage(fsSize, pagesize);
        fsBufLen := Span() - fsOff;
        ghost var was := file;
        file := file + seq(fsBufLen, _ => 0);
        assert file[..fsSize] == was[..fsSize];
        fsMaxSize := fsMaxSize + fsBufLen;
        mapped := true;
      }
    }

    /** A read of at most maxlen bytes into the window; fits is whether the window has room for what was read,
        and what a read past the window does is not said. */
    method Receive(maxlen: nat, data: seq<Byte>) returns (fits: bool)
      requires Valid() && |data| <= maxlen
      modifies this
      ensures Valid()
      ensures 2 * (pagesize - 1) + maxlen <= Span() ==> fits
      ensures fits <==> old(fsOff) + maxlen <= old(fsBufLen) || 2 * InPage(old(fsSize), pagesize) + |data| <= Span()
      ensures fsSize == old(fsSize) + if fits then |data| else 0
      ensures var (off, len) := Ready(old(fsOff), old(fsBufLen), old(fsSize), maxlen);
        fsOff == off + (if fits then |data| else 0) && fsBufLen == len
      ensures received == old(received) + if fits then data else []
      ensures file[..fsSize] == old(file[..fsSize]) + if fits then data else []
    {
      hide Span, InPage, OnPage;
      SetupMmap(maxlen);
      fits := fsOff + |data| <= fsBufLen;
      if fits {
        var start := fsSize - fsOff;
        file := file[..start + fsOff] + data + file[start + fsOff + |data|..];
        fsSize := fsSize + |data|;
        fsOff := fsOff + |data|;
        received := received + data;
      }
    }

    /** The file is cut to what was received when it is closed. */
    method Close()
      requires Valid()
      modifies this
      ensures file == received == old(received)
    {
      mapped := false;
      file := file[..fsSize];
    }
  }

  /** Pages of 64 KiB and 16 buffers of 4 KiB: the 61442nd byte finds no room. */
  method NoRoom() returns (mip: MmapInfo, fits: bool)
    ensures fresh(mip) && mip.Valid() && mip.fsSize == 61441 && mip.fsOff == 61441 && mip.fsBufLen == 4095 && !fits
  {
    mip := new MmapInfo(65536, 4096, 4);
    assert mip.Span() == 65536;
    hide MmapInfo.Valid;
    fits := mip.Receive(4096, seq(4096, _ => 0));
    for i := 1 to 15
      invariant fresh(mip) && mip.Valid() && mip.fsSize == mip.fsOff == 4096 * i && mip.fsBufLen == 65536
    {
      fits := mip.Receive(4096, seq(4096, _ => 0));
    }
    fits := mip.Receive(4096, [0]);
    fits := mip.Receive(4096, [0]);
  }
}
