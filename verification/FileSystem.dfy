/** The loops of fs.c and file.c on the state of InodeMap, against its functions.  `logged` counts log_write
    calls. */
module FileSystem {
  import opened Bitmap
  import opened InodeMap
  import opened InodeBytes
  import opened WriteCost

  datatype ReadResult = ReadError | ReadBytes(bytes: seq<int>)

  // ---- The loop of readi

  /** The bytes at off fit in what is left of block and request. */
  lemma ReadTurn(fs: Fs, i: int, off: int, tot: int, n: int)
    requires Inv(fs) && HasInode(fs, i) && 0 <= off && 0 <= tot < n && off + n <= |File(fs, i)|
    ensures (off + tot) / BSIZE < MAXFILE
    ensures var m := Bmap(fs, i, (off + tot) / BSIZE); var c := Chunk(off + tot, n - tot); var o := (off + tot) % BSIZE;
      && m.Mapped? && m.fs == fs && 0 < m.addr < |fs.data| && |fs.data[m.addr]| == BSIZE
      && 0 < c && o + c <= BSIZE && tot + c <= n && BmapCalls(fs, i, (off + tot) / BSIZE) == 0
      && File(fs, i)[off..off + tot] + fs.data[m.addr][o..o + c] == File(fs, i)[off..off + tot + c]
  {
    hide Bmap, Byte, Chunk, File, Inv, HasInode, BmapCalls;
    SizeOf(fs, i);
    ChunkFits(off + tot, n - tot);
    var c := Chunk(off + tot, n - tot);
    BlockSlice(fs, i, off + tot, c);
    JoinSlices(File(fs, i), off, off + tot, off + tot + c);
  }

  /** The block that bmap finds at off holds the bytes of the file there. */
  lemma BlockSlice(fs: Fs, i: int, off: int, c: int)
    requires Inv(fs) && HasInode(fs, i) && 0 <= off && 0 < c && off % BSIZE + c <= BSIZE && off + c <= |File(fs, i)|
    ensures off / BSIZE < MAXFILE
    ensures var m := Bmap(fs, i, off / BSIZE); var o := off % BSIZE;
      && m.Mapped? && m.fs == fs && 0 < m.addr < |fs.data| && |fs.data[m.addr]| == BSIZE
      && fs.data[m.addr][o..o + c] == File(fs, i)[off..off + c] && BmapCalls(fs, i, off / BSIZE) == 0
  {
    hide Bmap, Byte, Chunk, File, Inv, HasInode, BmapCalls;
    SizeOf(fs, i);
    ReadAllocatesNothing(fs, i, off);
    ReadLogsNothing(fs, i, off);
    BlockBytes(fs, i, fs.data[Bmap(fs, i, off / BSIZE).addr], off, c);
  }

  lemma ReadLogsNothing(fs: Fs, i: int, off: int)
    requires Inv(fs) && HasInode(fs, i) && 0 <= off < fs.inodes[i].size
    ensures off / BSIZE < MAXFILE && BmapCalls(fs, i, off / BSIZE) == 0
  {
    assert InodeOk(fs, i) && ExtentAt(fs, i, fs.inodes[i].size, off / BSIZE);
  }

  /** A block of a file holds a slice of it. */
  lemma BlockBytes(fs: Fs, i: int, block: Block, off: int, c: int)
    requires HasInode(fs, i) && |block| == BSIZE && 0 <= off && 0 <= c && off % BSIZE + c <= BSIZE
    requires off + c <= |File(fs, i)|
    requires forall x :: 0 <= x && x / BSIZE == off / BSIZE ==> Byte(fs, i, x) == block[x % BSIZE]
    ensures block[off % BSIZE..off % BSIZE + c] == File(fs, i)[off..off + c]
  {
    hide Byte;
    var o := off % BSIZE;
    var part := File(fs, i)[off..off + c];
    forall x | 0 <= x < c ensures part[x] == block[o..o + c][x] {
      SameBlockBytes(off, off + x, c);
    }
  }

  lemma SizeOf(fs: Fs, i: int)
    requires Inv(fs) && HasInode(fs, i)
    ensures |File(fs, i)| == fs.inodes[i].size <= MAXBYTES && Sized(fs)
  {
    assert InodeOk(fs, i);
  }

  lemma JoinSlices(s: seq<int>, a: int, b: int, c: int)
    requires 0 <= a <= b <= c <= |s|
    ensures s[a..b] + s[b..c] == s[a..c]
  {
  }

  // ---- The loop of writei

  /** writei's loop began in fs0 and stands in fs, with src to go at off. */
  ghost predicate Copying(fs0: Fs, src0: seq<int>, off0: int, fs: Fs, i: int, src: seq<int>, off: int, ext: int)
  {
    && Sized(fs0) && HasInode(fs0, i) && 0 <= off0 && off0 + |src0| <= MAXBYTES
    && Ready(fs, i, src, off, ext)
    && WriteLoop(fs0, i, src0, off0) == WriteLoop(fs, i, src, off)
  }

  lemma WriteReady(fs: Fs, i: int, src: seq<int>, off: int)
    requires Inv(fs) && HasInode(fs, i) && Bytes(src) && 0 <= off <= fs.inodes[i].size && off + |src| <= MAXBYTES
    ensures Ready(fs, i, src, off, fs.inodes[i].size) && Sized(fs) && |fs.dinodes| == |fs.inodes|
  {
    assert InodeOk(fs, i);
  }

  lemma CopyStart(fs: Fs, i: int, src: seq<int>, off: int, ext: int)
    requires Ready(fs, i, src, off, ext)
    ensures Copying(fs, src, off, fs, i, src, off, ext)
  {
    hide WriteLoop, Owned, Extent;
    ReadyMeans(fs, i, src, off, ext);
  }

  lemma CopyTurn(fs0: Fs, src0: seq<int>, off0: int, fs: Fs, i: int, src: seq<int>, off: int, ext: int)
    requires Copying(fs0, src0, off0, fs, i, src, off, ext) && src != []
    ensures Sized(fs0) && HasInode(fs0, i) && 0 <= off0 && off0 + |src0| <= MAXBYTES
    ensures Ready(fs, i, src, off, ext) && Sized(fs) && HasInode(fs, i) && 0 <= off && off + |src| <= MAXBYTES
    ensures var w := WriteChunk(fs, i, src, off); var c := Chunk(off, |src|);
      && 0 < c <= |src|
      && if w.Full? then WriteLoop(fs0, i, src0, off0) == w
         else Copying(fs0, src0, off0, w.fs, i, src[c..], off + c, Max(ext, off + c))
  {
    hide WriteLoop, WriteChunk, Chunk, Ready, Spliced, DiskFull, Sized, HasInode;
    ReadyMeans(fs, i, src, off, ext);
    LoopTurn(fs, i, src, off, ext);
  }

  lemma CopyEnd(fs0: Fs, src0: seq<int>, off0: int, fs: Fs, i: int, src: seq<int>, off: int, ext: int)
    requires Copying(fs0, src0, off0, fs, i, src, off, ext) && src == []
    ensures Sized(fs0) && HasInode(fs0, i) && 0 <= off0 && off0 + |src0| <= MAXBYTES
    ensures Sized(fs) && HasInode(fs, i) && 0 <= off && off + |src| <= MAXBYTES
    ensures WriteLoop(fs0, i, src0, off0) == Written(fs)
  {
    hide Owned, Extent, WriteChunk;
    ReadyMeans(fs, i, src, off, ext);
  }

  /** The log_write calls that writei's loop has made. */
  ghost function CallsSoFar(fs0: Fs, src0: seq<int>, off0: int, fs: Fs, i: int, src: seq<int>, off: int): int
  {
    if Sized(fs0) && HasInode(fs0, i) && 0 <= off0 && off0 + |src0| <= MAXBYTES
       && Sized(fs) && HasInode(fs, i) && 0 <= off && off + |src| <= MAXBYTES
    then LoopCalls(fs0, i, src0, off0) - LoopCalls(fs, i, src, off) else 0
  }

  lemma CallsTurn(fs0: Fs, src0: seq<int>, off0: int, fs: Fs, i: int, src: seq<int>, off: int, ext: int)
    requires Copying(fs0, src0, off0, fs, i, src, off, ext) && src != []
    ensures Sized(fs) && HasInode(fs, i) && 0 <= off && off + |src| <= MAXBYTES
    ensures Sized(fs0) && HasInode(fs0, i) && 0 <= off0 && off0 + |src0| <= MAXBYTES
    ensures var w := WriteChunk(fs, i, src, off); var c := Chunk(off, |src|);
      var calls := CallsSoFar(fs0, src0, off0, fs, i, src, off) + ChunkCalls(fs, i, src, off);
      && 0 < c <= |src|
      && if w.Full? then calls == LoopCalls(fs0, i, src0, off0)
         else calls == CallsSoFar(fs0, src0, off0, w.fs, i, src[c..], off + c)
  {
    hide WriteLoop, WriteChunk, Chunk, Ready, ChunkCalls, Sized, HasInode;
    ReadyMeans(fs, i, src, off, ext);
    WriteLoopUnfolds(fs, i, src, off);
  }

  lemma CallsEnd(fs: Fs, i: int, src: seq<int>, off: int)
    requires Sized(fs) && HasInode(fs, i) && 0 <= off && off + |src| <= MAXBYTES && src == []
    ensures LoopCalls(fs, i, src, off) == 0
  {
  }

  // ---- The loop of filewrite

  ghost predicate CanFile(fs: Fs, i: int, src: seq<int>, off: int)
  {
    Inv(fs) && HasInode(fs, i) && 0 <= off < TWO32 && Bytes(src)
  }

  lemma CanFileMeans(fs: Fs, i: int, src: seq<int>, off: int)
    requires CanFile(fs, i, src, off)
    ensures Inv(fs) && Sized(fs) && HasInode(fs, i) && |fs.dinodes| == |fs.inodes| && 0 <= off < TWO32
    ensures Bytes(src)
  {
  }

  /** filewrite's loop began in fs0 and stands in fs, with src to go at off. */
  ghost predicate Filing(fs0: Fs, src0: seq<int>, off0: int, fs: Fs, i: int, src: seq<int>, off: int)
  {
    && CanFile(fs0, i, src0, off0) && CanFile(fs, i, src, off)
    && FileWrite(fs0, i, src0, off0) == FileWrite(fs, i, src, off)
  }

  lemma FileStart(fs: Fs, i: int, src: seq<int>, off: int)
    requires Inv(fs) && HasInode(fs, i) && 0 <= off < TWO32 && Bytes(src)
    ensures Filing(fs, src, off, fs, i, src, off)
  {
  }

  /** The chunk that filewrite writes next. */
  function Piece(src: seq<int>): (r: seq<int>)
    ensures |r| == Min(|src|, MAXCHUNK) && |r| <= |src|
  {
    src[..Min(|src|, MAXCHUNK)]
  }

  /** One turn of the loop. */
  lemma FileStep(fs: Fs, i: int, src: seq<int>, off: int)
    requires CanFile(fs, i, src, off) && src != []
    ensures Sized(fs) && HasInode(fs, i) && |fs.dinodes| == |fs.inodes| && 0 <= off < TWO32 && Bytes(Piece(src))
    ensures FileWrite(fs, i, src, off) ==
      match Writei(fs, i, Piece(src), off)
      case Rejected => FileDone(fs, off, false)
      case NoSpace(fs') => FileNoSpace(fs')
      case Wrote(fs') =>
        assert CanFile(fs', i, src[|Piece(src)|..], off + |Piece(src)|) by { PieceKeeps(fs, i, src, off); }
        FileWrite(fs', i, src[|Piece(src)|..], off + |Piece(src)|)
  {
    FileWriteUnfolds(fs, i, src, off);
    PieceKeeps(fs, i, src, off);
    hide Writei, FileWrite, Owned, InodeOk;
  }

  lemma PieceKeeps(fs: Fs, i: int, src: seq<int>, off: int)
    requires CanFile(fs, i, src, off) && src != []
    ensures Sized(fs) && |fs.dinodes| == |fs.inodes|
    ensures var w := Writei(fs, i, Piece(src), off);
      w.Wrote? ==> CanFile(w.fs, i, src[|Piece(src)|..], off + |Piece(src)|)
  {
    CanFileMeans(fs, i, src, off);
    PieceKeepsInv(fs, i, Piece(src), off);
    WroteFits(fs, i, Piece(src), off);
    hide Writei, Inv, Sized;
  }

  lemma WroteFits(fs: Fs, i: int, src: seq<int>, off: int)
    requires Inv(fs) && HasInode(fs, i) && Bytes(src) && 0 <= off < TWO32 && |src| < TWO32
    ensures Writei(fs, i, src, off).Wrote? ==> off + |src| < TWO32
  {
    hide WriteLoop;
  }

  lemma FileTurn(fs0: Fs, src0: seq<int>, off0: int, fs: Fs, i: int, src: seq<int>, off: int)
    requires Filing(fs0, src0, off0, fs, i, src, off) && src != []
    ensures Inv(fs) && HasInode(fs, i) && 0 <= off < TWO32 && Bytes(Piece(src))
    ensures Sized(fs) && |fs.dinodes| == |fs.inodes|
    ensures Sized(fs0) && HasInode(fs0, i) && |fs0.dinodes| == |fs0.inodes| && 0 <= off0 < TWO32
    ensures match Writei(fs, i, Piece(src), off)
      case Rejected => FileWrite(fs0, i, src0, off0) == FileDone(fs, off, false)
      case NoSpace(fs') => FileWrite(fs0, i, src0, off0) == FileNoSpace(fs')
      case Wrote(fs') => Filing(fs0, src0, off0, fs', i, src[|Piece(src)|..], off + |Piece(src)|)
  {
    hide Writei, FileWrite, Owned, InodeOk, CanFile, Inv, Sized, HasInode, Bytes, Piece;
    CanFileMeans(fs0, i, src0, off0);
    CanFileMeans(fs, i, src, off);
    FileStep(fs, i, src, off);
    PieceKeeps(fs, i, src, off);
  }

  lemma PieceKeepsInv(fs: Fs, i: int, src: seq<int>, off: int)
    requires Inv(fs) && HasInode(fs, i) && Bytes(src) && 0 <= off < TWO32 && |src| < TWO32
    ensures var w := Writei(fs, i, src, off); w.Wrote? ==> Inv(w.fs) && HasInode(w.fs, i)
  {
    WriteiSplices(fs, i, src, off);
  }

  // ---- The loops of itrunc

  /** fs while itrunc of inode i in fs0 has freed p slots. */
  ghost predicate Truncating(fs0: Fs, fs: Fs, i: int, p: nat)
  {
    && HasInode(fs0, i) && p < SLOTS
    && fs.meta == fs0.meta && fs.data == fs0.data && fs.dinodes == fs0.dinodes
    && fs.bits == FreedBits(fs0, i, p)
    && |fs.inodes| == |fs0.inodes| && fs.inodes == fs0.inodes[i := fs.inodes[i]]
    && |fs.inodes[i].addrs| == NDIRECT + 1 && fs.inodes[i] == fs0.inodes[i].(addrs := fs.inodes[i].addrs)
    && forall k :: 0 <= k <= NDIRECT ==>
         fs.inodes[i].addrs[k] == if k < NDIRECT && k < p then 0 else fs0.inodes[i].addrs[k]
  }

  lemma TruncatingSlot(fs0: Fs, fs: Fs, i: int, p: nat)
    requires Owned(fs0) && Truncating(fs0, fs, i, p)
    ensures Shaped(fs.bits)
    ensures Ref(fs0, i, FreeOrder(p)) != 0 ==>
      && 0 < Ref(fs0, i, FreeOrder(p)) < |fs.data|
      && Within(fs.bits, Ref(fs0, i, FreeOrder(p))) && Used(fs.bits, Ref(fs0, i, FreeOrder(p)))
  {
    assert RefAt(fs0, i, FreeOrder(p));
    FreedBitsAre(fs0, i, p, 0);
    if Ref(fs0, i, FreeOrder(p)) != 0 { NeverFreesFree(fs0, i, p); }
  }

  class FileSystem {
    const meta: int
    var bits: Bits
    var data: seq<Block>
    var inodes: seq<Inode>
    var dinodes: seq<Inode>
    ghost var logged: nat

    ghost function State(): Fs
      reads this
    {
      Fs(meta, bits, data, inodes, dinodes)
    }

    constructor (fs: Fs)
      ensures State() == fs && logged == 0
    {
      meta, bits, data, inodes, dinodes := fs.meta, fs.bits, fs.data, fs.inodes, fs.dinodes;
      logged := 0;
    }

    lemma StateIs()
      ensures State() == Fs(meta, bits, data, inodes, dinodes)
    {
    }

    /** NONE stands for the panic on a full disk. */
    method Balloc() returns (b: int)
      requires Sized(State())
      modifies this`bits, this`data, this`logged
      ensures logged == old(logged) + if b == NONE then 0 else 2
      ensures b == LeastFree(old(bits), |old(data)|, 0)
      ensures State() == if b == NONE then old(State()) else Allocate(old(State()), b)
      ensures b != NONE ==> !Used(old(bits), b) && forall c :: Used(bits, c) <==> c == b || Used(old(bits), c)
    {
      LeastIsFree(State());
      b := FindFree(bits, |data|);
      if b != NONE {
        WithinData(State(), b);
        forall c ensures Used(Mark(bits, b), c) <==> c == b || Used(bits, c) { MarkOnly(bits, b, c); }
        bits := Mark(bits, b);
        logged := logged + 1;
        data := data[b := ZeroBlock()];
        logged := logged + 1;
      }
    }

    /** Block b is free again, and every other block is as it was.  The source panics on a free block. */
    method Bfree(b: int)
      requires Shaped(bits) && Within(bits, b) && Used(bits, b)
      modifies this`bits, this`logged
      ensures logged == old(logged) + 1
      ensures Shaped(bits) && bits == InodeMap.Bfree(old(bits), b)
      ensures forall c :: Used(bits, c) <==> c != b && Used(old(bits), c)
    {
      forall c ensures Used(Clear(bits, b), c) <==> c != b && Used(bits, c) { ClearOnly(bits, b, c); }
      ClearOnly(bits, b, b);
      bits := Clear(bits, b);
      logged := logged + 1;
    }

    method Bmap(i: int, bn: int) returns (addr: int)
      requires Owned(State()) && HasInode(State(), i) && 0 <= bn < MAXFILE
      modifies this`bits, this`data, this`inodes, this`logged
      ensures var m := InodeMap.Bmap(old(State()), i, bn);
        State() == m.fs && addr == if m.Mapped? then m.addr else NONE
      ensures logged == old(logged) + BmapCalls(old(State()), i, bn)
    {
      ghost var fs := State();
      if bn < NDIRECT {
        addr := DemandDirect(i, bn);
      } else {
        addr := DemandDirect(i, NDIRECT);
        DemandKeeps(fs, i, NDIRECT);
        DemandShape(fs, i, NDIRECT);
        if addr == NONE {
          return;
        }
        addr := DemandEntry(i, addr, bn - NDIRECT);
      }
    }

    /** bmap's steps on addrs: take the address there, or allocate one. */
    method DemandDirect(i: int, k: int) returns (addr: int)
      requires Owned(State()) && HasInode(State(), i) && 0 <= k <= NDIRECT
      modifies this`bits, this`data, this`inodes, this`logged
      ensures var m := Demand(old(State()), i, k);
        State() == m.fs && addr == if m.Mapped? then m.addr else NONE
      ensures logged == old(logged) + DemandCalls(old(State()), i, k)
    {
      hide Used, Within, Shaped;
      assert RefAt(State(), i, k);
      addr := inodes[i].addrs[k];
      if addr == 0 {
        addr := Balloc();
        if addr != NONE {
          inodes := inodes[i := inodes[i].(addrs := inodes[i].addrs[k := addr])];
        }
      }
    }

    /** The same on an entry of the indirect block. */
    method DemandEntry(i: int, a: int, e: int) returns (addr: int)
      requires Owned(State()) && HasInode(State(), i) && 0 <= e < NINDIRECT
      requires a == inodes[i].addrs[NDIRECT] && a != 0
      modifies this`bits, this`data, this`logged
      ensures var m := Demand(old(State()), i, NDIRECT + 1 + e);
        State() == m.fs && addr == if m.Mapped? then m.addr else NONE
      ensures logged == old(logged) + DemandCalls(old(State()), i, NDIRECT + 1 + e)
    {
      hide Used, Within, Shaped;
      ghost var fs := State();
      assert RefAt(fs, i, NDIRECT) && BlockAt(fs, a) && RefAt(fs, i, NDIRECT + 1 + e);
      addr := Word(data[a], e);
      if addr == 0 {
        LeastIsFree(fs);
        addr := Balloc();
        if addr != NONE {
          assert addr != a;
          data := data[a := PutWord(data[a], e, addr)];
          logged := logged + 1;
        }
      }
    }

    /** readi on a file that is not a device. */
    method Readi(i: int, off: int, n: int) returns (r: ReadResult)
      requires Inv(State()) && HasInode(State(), i) && 0 <= off < TWO32 && 0 <= n < TWO32
      modifies this`bits, this`data, this`inodes, this`logged
      ensures State() == old(State()) && logged == old(logged)
      ensures var file := File(State(), i);
        r == if off > |file| || (off + n) % TWO32 < off then ReadError
             else ReadBytes(file[off..Min(off + n, |file|)])
    {
      hide Bitmap.Used, InodeMap.Ref, Byte;
      SizeOf(State(), i);
      if off > inodes[i].size || (off + n) % TWO32 < off {
        return ReadError;
      }
      var left := n;
      if (off + n) % TWO32 > inodes[i].size {
        left := inodes[i].size - off;
      }
      var dst := CopyOut(i, off, left);
      return ReadBytes(dst);
    }

    /** Its loop. */
    method CopyOut(i: int, off: int, n: int) returns (dst: seq<int>)
      requires Inv(State()) && HasInode(State(), i) && 0 <= off && 0 <= n && off + n <= |File(State(), i)|
      modifies this`bits, this`data, this`inodes, this`logged
      ensures State() == old(State()) && logged == old(logged) && dst == File(State(), i)[off..off + n]
    {
      ghost var fs := State();
      dst := [];
      var tot := 0;
      while tot < n
        invariant State() == fs && logged == old(logged) && 0 <= tot <= n
        invariant dst == File(fs, i)[off..off + tot]
      {
        ReadTurn(fs, i, off, tot, n);
        var a := Bmap(i, (off + tot) / BSIZE);
        var m := Chunk(off + tot, n - tot);
        dst := dst + data[a][(off + tot) % BSIZE..(off + tot) % BSIZE + m];
        tot := tot + m;
      }
    }

    /** writei on a file that is not a device: Rejected is the -1 return, NoSpace the panic. */
    method Writei(i: int, src: seq<int>, off: int) returns (r: WriteResult)
      requires Inv(State()) && HasInode(State(), i) && Bytes(src) && 0 <= off < TWO32 && |src| < TWO32
      modifies this
      ensures r == InodeBytes.Writei(old(State()), i, src, off)
      ensures State() == if r.Rejected? then old(State()) else r.fs
      ensures logged == old(logged) + WriteiCalls(old(State()), i, src, off)
    {
      hide WriteLoop, Owned, Extent, Ready, LoopCalls;
      ghost var fs := State();
      assert InodeOk(fs, i);
      var n := |src|;
      if off > inodes[i].size || (off + n) % TWO32 < off {
        return Rejected;
      }
      if (off + n) % TWO32 > MAXBYTES {
        return Rejected;
      }
      NoWrap(inodes[i].size, off, n);
      WriteReady(fs, i, src, off);
      WriteLoopShape(fs, i, src, off);
      WriteLoopSplices(fs, i, src, off, fs.inodes[i].size);
      var ok := CopyIn(i, src, off);
      if !ok {
        return NoSpace(Fs(meta, bits, data, inodes, dinodes));
      }
      if n > 0 && off + n > inodes[i].size {
        inodes := inodes[i := inodes[i].(size := off + n)];
        dinodes := dinodes[i := inodes[i]];
        logged := logged + 1;
      }
      return Wrote(Fs(meta, bits, data, inodes, dinodes));
    }

    /** Its loop. */
    method CopyIn(i: int, src: seq<int>, off0: int) returns (ok: bool)
      requires HasInode(State(), i) && Ready(State(), i, src, off0, inodes[i].size)
      modifies this`bits, this`data, this`inodes, this`logged
      ensures var w := WriteLoop(old(State()), i, src, off0);
        State() == w.fs && ok == w.Written?
      ensures logged == old(logged) + LoopCalls(old(State()), i, src, off0)
    {
      hide Copying, WriteLoop, WriteChunk, Chunk, Ready, Sized, LoopCalls, ChunkCalls;
      ghost var fs := State();
      ghost var ext := inodes[i].size;
      CopyStart(fs, i, src, off0, ext);
      var tot, off, rest := 0, off0, src;
      while tot < |src|
        invariant 0 <= tot <= |src| && |rest| == |src| - tot
        invariant Copying(fs, src, off0, State(), i, rest, off, ext)
        invariant logged - old(logged) == CallsSoFar(fs, src, off0, State(), i, rest, off)
      {
        CopyTurn(fs, src, off0, State(), i, rest, off, ext);
        CallsTurn(fs, src, off0, State(), i, rest, off, ext);
        var m := CopyChunk(i, rest, off, ext);
        if m == 0 {
          return false;
        }
        ext := Max(ext, off + m);
        tot, off, rest := tot + m, off + m, rest[m..];
      }
      CopyEnd(fs, src, off0, State(), i, rest, off, ext);
      CallsEnd(State(), i, rest, off);
      return true;
    }

    /** One turn of it; 0 for the panic. */
    method CopyChunk(i: int, src: seq<int>, off: int, ghost ext: int) returns (m: int)
      requires Ready(State(), i, src, off, ext) && src != []
      modifies this`bits, this`data, this`inodes, this`logged
      ensures var w := WriteChunk(old(State()), i, src, off);
        State() == w.fs && m == if w.Written? then Chunk(off, |src|) else 0
      ensures logged == old(logged) + ChunkCalls(old(State()), i, src, off)
    {
      ReadyMeans(State(), i, src, off, ext);
      ChunkMapped(State(), i, src, off, ext);
      ChunkFits(off, |src|);
      hide WriteChunk, Chunk, Poke;
      var a := Bmap(i, off / BSIZE);
      if a == NONE {
        return 0;
      }
      m := Chunk(off, |src|);
      PutBytes(a, off % BSIZE, src[..m]);
    }

    /** The copy into a block's buffer. */
    method PutBytes(a: int, o: int, s: seq<int>)
      requires 0 <= a < |data| && |data[a]| == BSIZE && 0 <= o && o + |s| <= BSIZE
      modifies this`data, this`logged
      ensures State() == Poke(old(State()), a, o, s) && logged == old(logged) + 1
    {
      data := data[a := data[a][..o] + s + data[a][o + |s|..]];
      logged := logged + 1;
    }

    method Itrunc(i: int)
      requires Inv(State()) && HasInode(State(), i)
      modifies this`bits, this`inodes, this`dinodes, this`logged
      ensures State() == Trunc(old(State()), i)
    {
      hide Used, Within, Shaped;
      ghost var fs := State();
      FreeDirect(i);
      var ind := inodes[i].addrs[NDIRECT];
      if ind != 0 {
        FreeEntries(i, ind, fs);
        TruncatingSlot(fs, State(), i, SLOTS - 1);
        Bfree(ind);
        inodes := inodes[i := inodes[i].(addrs := inodes[i].addrs[NDIRECT := 0])];
      } else {
        NoEntries(fs, i, SLOTS);
      }
      inodes := inodes[i := inodes[i].(size := 0)];
      assert inodes[i] == Emptied(fs.inodes[i]);
      dinodes := dinodes[i := inodes[i]];
      logged := logged + 1;
    }

    /** What iput does to an inode without links on its last reference. */
    method FreeInode(i: int)
      requires Inv(State()) && HasInode(State(), i)
      modifies this
      ensures State() == InodeBytes.FreeInode(old(State()), i)
    {
      ghost var fs := State();
      assert InodeOk(fs, i);
      Itrunc(i);
      inodes := inodes[i := inodes[i].(kind := 0)];
      dinodes := dinodes[i := inodes[i]];
      logged := logged + 1;
    }

    /** Its loop over the direct blocks. */
    method FreeDirect(i: int)
      requires Owned(State()) && HasInode(State(), i)
      modifies this`bits, this`inodes, this`logged
      ensures Truncating(old(State()), State(), i, NDIRECT)
    {
      hide Used, Within, Shaped;
      ghost var fs := State();
      var k := 0;
      while k < NDIRECT
        invariant 0 <= k <= NDIRECT && Truncating(fs, State(), i, k)
      {
        TruncatingSlot(fs, State(), i, k);
        if inodes[i].addrs[k] != 0 {
          Bfree(inodes[i].addrs[k]);
          inodes := inodes[i := inodes[i].(addrs := inodes[i].addrs[k := 0])];
        }
        k := k + 1;
      }
    }

    /** Its loop over the indirect block. */
    method FreeEntries(i: int, ind: int, ghost fs: Fs)
      requires Owned(fs) && Truncating(fs, State(), i, NDIRECT) && ind == fs.inodes[i].addrs[NDIRECT] && ind != 0
      modifies this`bits, this`logged
      ensures Truncating(fs, State(), i, SLOTS - 1)
    {
      hide Used, Within, Shaped;
      assert RefAt(fs, i, NDIRECT) && BlockAt(fs, ind);
      var j := 0;
      while j < NINDIRECT
        invariant 0 <= j <= NINDIRECT && Truncating(fs, State(), i, NDIRECT + j)
      {
        TruncatingSlot(fs, State(), i, NDIRECT + j);
        var b := Word(data[ind], j);
        assert b == Ref(fs, i, FreeOrder(NDIRECT + j));
        if b != 0 {
          Bfree(b);
        }
        j := j + 1;
      }
    }

    /** filewrite on an inode: `ok` tells the count from -1. */
    method FileWrite(i: int, src: seq<int>, off0: int) returns (r: FileResult)
      requires Inv(State()) && HasInode(State(), i) && Bytes(src) && 0 <= off0 < TWO32
      modifies this
      ensures r == InodeBytes.FileWrite(old(State()), i, src, off0)
      ensures State() == r.fs
    {
      hide *;
      ghost var fs := State();
      FileStart(fs, i, src, off0);
      var n, k, off, rest := |src|, 0, off0, src;
      while k < n
        invariant 0 <= k <= n && |rest| == n - k && Filing(fs, src, off0, State(), i, rest, off)
      {
        FileTurn(fs, src, off0, State(), i, rest, off);
        var n1 := n - k;
        if n1 > MAXCHUNK {
          n1 := MAXCHUNK;
        }
        PieceIs(rest, n1);
        var w := Writei(i, rest[..n1], off);
        StateIs();
        if w.Rejected? {
          return FileDone(Fs(meta, bits, data, inodes, dinodes), off, false);
        }
        if w.NoSpace? {
          return FileNoSpace(Fs(meta, bits, data, inodes, dinodes));
        }
        k, off, rest := k + n1, off + n1, rest[n1..];
      }
      FileEnd(fs, src, off0, State(), i, rest, off);
      StateIs();
      return FileDone(Fs(meta, bits, data, inodes, dinodes), off, true);
    }
  }

  lemma PieceIs(src: seq<int>, n: int)
    requires src != [] && n == if |src| > MAXCHUNK then MAXCHUNK else |src|
    ensures 0 < n <= |src| && n < TWO32 && src[..n] == Piece(src)
  {
  }

  lemma FileEnd(fs0: Fs, src0: seq<int>, off0: int, fs: Fs, i: int, src: seq<int>, off: int)
    requires Filing(fs0, src0, off0, fs, i, src, off) && src == []
    ensures Sized(fs0) && HasInode(fs0, i) && |fs0.dinodes| == |fs0.inodes| && 0 <= off0 < TWO32
    ensures FileWrite(fs0, i, src0, off0) == FileDone(fs, off, true)
  {
  }

  lemma ChunkMapped(fs: Fs, i: int, src: seq<int>, off: int, ext: int)
    requires Ready(fs, i, src, off, ext) && src != []
    ensures var m := Bmap(fs, i, off / BSIZE); var c := Chunk(off, |src|);
      && (m.Mapped? ==> 0 < m.addr < |m.fs.data| && |m.fs.data[m.addr]| == BSIZE)
      && WriteChunk(fs, i, src, off) ==
         if m.Mapped? then Written(Poke(m.fs, m.addr, off % BSIZE, src[..c])) else Full(m.fs)
  {
    BmapKeeps(fs, i, off / BSIZE);
    var m := Bmap(fs, i, off / BSIZE);
    if m.Mapped? {
      assert BlockAt(m.fs, m.addr);
    }
  }

  /** Without an indirect block there are no entries to free. */
  lemma {:induction false} NoEntries(fs: Fs, i: int, p: nat)
    requires HasInode(fs, i) && fs.inodes[i].addrs[NDIRECT] == 0 && NDIRECT <= p <= SLOTS
    ensures FreedBits(fs, i, p) == FreedBits(fs, i, NDIRECT)
  {
    if p > NDIRECT { NoEntries(fs, i, p - 1); }
  }
}
