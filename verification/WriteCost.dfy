/** What writei costs: the blocks that it allocates and the log_write calls that it makes, and how filewrite's
    chunks compare with the log space that begin_op sets aside.
 */
module WriteCost {
  import opened Bitmap
  import opened InodeMap
  import opened InodeBytes
  import LogRecovery

  // ---- Along the code

  /** log_write calls of bmap for one slot: balloc makes two, and an entry of the indirect block one more. */
  function DemandCalls(fs: Fs, i: int, k: int): nat
    requires Sized(fs) && HasInode(fs, i) && 0 <= k < SLOTS
  {
    if Ref(fs, i, k) != 0 || Demand(fs, i, k).OutOfBlocks? then 0 else if k > NDIRECT then 3 else 2
  }

  function BmapCalls(fs: Fs, i: int, bn: int): nat
    requires Sized(fs) && HasInode(fs, i) && 0 <= bn < MAXFILE
  {
    if bn < NDIRECT then DemandCalls(fs, i, bn)
    else
      var m := Demand(fs, i, NDIRECT);
      DemandShape(fs, i, NDIRECT);
      DemandCalls(fs, i, NDIRECT) + if m.OutOfBlocks? then 0 else DemandCalls(m.fs, i, DataSlot(bn))
  }

  /** One turn of writei's loop: bmap's, and one for the block it writes. */
  function ChunkCalls(fs: Fs, i: int, src: seq<int>, off: int): nat
    requires Sized(fs) && HasInode(fs, i) && 0 <= off && off + |src| <= MAXBYTES && src != []
  {
    BmapCalls(fs, i, off / BSIZE) + if WriteChunk(fs, i, src, off).Full? then 0 else 1
  }

  function LoopCalls(fs: Fs, i: int, src: seq<int>, off: int): nat
    requires Sized(fs) && HasInode(fs, i) && 0 <= off && off + |src| <= MAXBYTES
    decreases |src|
  {
    if src == [] then 0
    else
      WriteLoopUnfolds(fs, i, src, off);
      var w := WriteChunk(fs, i, src, off);
      var c := Chunk(off, |src|);
      ChunkCalls(fs, i, src, off) + if w.Full? then 0 else LoopCalls(w.fs, i, src[c..], off + c)
  }

  /** And one for iupdate if the file has grown. */
  function WriteiCalls(fs: Fs, i: int, src: seq<int>, off: int): nat
    requires Sized(fs) && HasInode(fs, i) && |fs.dinodes| == |fs.inodes|
    requires 0 <= off < TWO32 && |src| < TWO32
  {
    if !Accepts(fs.inodes[i].size, off, |src|) then 0
    else
      NoWrap(fs.inodes[i].size, off, |src|);
      LoopCalls(fs, i, src, off)
      + if WriteLoop(fs, i, src, off).Written? && src != [] && off + |src| > fs.inodes[i].size then 1 else 0
  }

  // ---- From the numbers alone: a file of ext bytes, n bytes to write at off

  /** Blocks that bmap allocates for block bn. */
  function BlocksAt(ext: int, bn: int): nat
  {
    if bn * BSIZE < ext then 0 else if bn >= NDIRECT && ext <= NDIRECT * BSIZE then 2 else 1
  }

  function CallsAt(ext: int, bn: int): nat
  {
    2 * BlocksAt(ext, bn) + if bn >= NDIRECT && ext <= bn * BSIZE then 1 else 0
  }

  /** Blocks that the loop allocates. */
  function NewBlocks(ext: int, off: int, n: int): nat
    decreases n
  {
    if n <= 0 then 0
    else
      ChunkFits(off, n);
      var c := Chunk(off, n);
      BlocksAt(ext, off / BSIZE) + NewBlocks(Max(ext, off + c), off + c, n - c)
  }

  function NewCalls(ext: int, off: int, n: int): nat
    decreases n
  {
    if n <= 0 then 0
    else
      ChunkFits(off, n);
      var c := Chunk(off, n);
      1 + CallsAt(ext, off / BSIZE) + NewCalls(Max(ext, off + c), off + c, n - c)
  }

  /** log_write calls of a writei that succeeds. */
  function Calls(size: int, off: int, n: int): nat
  {
    NewCalls(size, off, n) + if n > 0 && off + n > size then 1 else 0
  }

  // ---- Free blocks

  /** Free blocks below n. */
  function Frees(bits: Bits, n: nat): nat
  {
    if n == 0 then 0 else (if Used(bits, n - 1) then 0 else 1) + Frees(bits, n - 1)
  }

  lemma {:induction false} FreesAfter(bits: Bits, bits': Bits, b: int, n: nat)
    requires !Used(bits, b) && forall c :: Used(bits', c) <==> c == b || Used(bits, c)
    ensures Frees(bits', n) == Frees(bits, n) - if 0 <= b < n then 1 else 0
  {
    hide Used;
    if n > 0 { FreesAfter(bits, bits', b, n - 1); }
  }

  lemma {:induction false} NoFrees(bits: Bits, n: nat)
    ensures Frees(bits, n) == 0 <==> forall c :: 0 <= c < n ==> Used(bits, c)
  {
    hide Used;
    if n > 0 { NoFrees(bits, n - 1); }
  }

  function FreeBlocks(fs: Fs): nat
  {
    Frees(fs.bits, |fs.data|)
  }

  lemma DemandFrees(fs: Fs, i: int, k: int)
    requires Owned(fs) && HasInode(fs, i) && 0 <= k < SLOTS && (k > NDIRECT ==> Ref(fs, i, NDIRECT) != 0)
    ensures var m := Demand(fs, i, k); var need := if Ref(fs, i, k) == 0 then 1 else 0;
      && (m.Mapped? <==> FreeBlocks(fs) >= need)
      && (m.Mapped? ==> FreeBlocks(m.fs) == FreeBlocks(fs) - need)
  {
    LeastIsFree(fs);
    NoFrees(fs.bits, |fs.data|);
    var b := LeastFree(fs.bits, |fs.data|, 0);
    if Ref(fs, i, k) == 0 && b != NONE {
      InstallBits(fs, i, k, b);
      var fs' := Install(fs, i, k, b);
      forall c ensures Used(fs'.bits, c) <==> c == b || Used(fs.bits, c) { MarkOnly(fs.bits, b, c); }
      hide Used, Ref;
      FreesAfter(fs.bits, fs'.bits, b, |fs.data|);
    }
  }

  // ---- The numbers tell

  lemma BmapCost(fs: Fs, i: int, bn: int, ext: int)
    requires Owned(fs) && HasInode(fs, i) && Extent(fs, i, ext) && 0 <= bn < MAXFILE
    ensures var m := Bmap(fs, i, bn);
      && (m.Mapped? <==> FreeBlocks(fs) >= BlocksAt(ext, bn))
      && (m.Mapped? ==> FreeBlocks(m.fs) == FreeBlocks(fs) - BlocksAt(ext, bn) && BmapCalls(fs, i, bn) == CallsAt(ext, bn))
  {
    assert ExtentAt(fs, i, ext, bn);
    if bn < NDIRECT {
      DemandFrees(fs, i, bn);
      hide Demand, FreeBlocks, Ref, Owned, Extent;
      return;
    }
    DemandFrees(fs, i, NDIRECT);
    DemandKeeps(fs, i, NDIRECT);
    DemandShape(fs, i, NDIRECT);
    var m := Demand(fs, i, NDIRECT);
    if m.Mapped? { DemandFrees(m.fs, i, DataSlot(bn)); }
    hide Demand, FreeBlocks, Ref, Owned, Extent;
  }

  lemma ChunkCost(fs: Fs, i: int, src: seq<int>, off: int, ext: int)
    requires Ready(fs, i, src, off, ext) && src != []
    ensures var w := WriteChunk(fs, i, src, off); var bn := off / BSIZE;
      && (w.Written? <==> FreeBlocks(fs) >= BlocksAt(ext, bn))
      && (w.Written? ==>
            FreeBlocks(w.fs) == FreeBlocks(fs) - BlocksAt(ext, bn) && ChunkCalls(fs, i, src, off) == 1 + CallsAt(ext, bn))
  {
    var bn := off / BSIZE;
    BmapCost(fs, i, bn, ext);
    BmapKeeps(fs, i, bn);
    var m := Bmap(fs, i, bn);
    if m.Mapped? { assert BlockAt(m.fs, m.addr); }
    hide Bmap, BmapCalls, Owned, Extent, Ref, Frees, BlocksAt, CallsAt;
  }

  /** The loop succeeds if and only if the blocks it needs are free, and then makes just so many calls. */
  lemma {:induction false} LoopCost(fs: Fs, i: int, src: seq<int>, off: int, ext: int)
    requires Ready(fs, i, src, off, ext)
    ensures Sized(fs) && HasInode(fs, i) && 0 <= off && off + |src| <= MAXBYTES
    ensures var w := WriteLoop(fs, i, src, off);
      && (w.Written? <==> FreeBlocks(fs) >= NewBlocks(ext, off, |src|))
      && (w.Written? ==> LoopCalls(fs, i, src, off) == NewCalls(ext, off, |src|))
    decreases |src|
  {
    hide Ready, WriteChunk, Chunk, Spliced, DiskFull, Sized, HasInode, FreeBlocks, BlocksAt, CallsAt, ChunkCalls;
    ReadyMeans(fs, i, src, off, ext);
    WriteLoopUnfolds(fs, i, src, off);
    if src != [] {
      LoopTurn(fs, i, src, off, ext);
      ChunkCost(fs, i, src, off, ext);
      var w := WriteChunk(fs, i, src, off);
      var c := Chunk(off, |src|);
      if w.Written? { LoopCost(w.fs, i, src[c..], off + c, Max(ext, off + c)); }
    }
  }

  /** writei, asked for what fits in a file: it runs out of disk if and only if fewer blocks are free than it
      has to allocate; and the log_write calls of one that succeeds depend on size, offset and count only. */
  lemma WriteiCost(fs: Fs, i: int, src: seq<int>, off: int)
    requires Inv(fs) && HasInode(fs, i) && Bytes(src) && 0 <= off <= fs.inodes[i].size && off + |src| <= MAXBYTES
    ensures Sized(fs) && |fs.dinodes| == |fs.inodes|
    ensures var size := fs.inodes[i].size;
      match Writei(fs, i, src, off)
      case Wrote(_) => FreeBlocks(fs) >= NewBlocks(size, off, |src|) && WriteiCalls(fs, i, src, off) == Calls(size, off, |src|)
      case NoSpace(_) => FreeBlocks(fs) < NewBlocks(size, off, |src|)
      case Rejected => false
  {
    assert InodeOk(fs, i);
    var size := fs.inodes[i].size;
    AcceptsExactly(size, off, |src|);
    LoopCost(fs, i, src, off, size);
    WriteLoopShape(fs, i, src, off);
    hide WriteLoop, LoopCalls, NewBlocks, NewCalls, FreeBlocks, Owned, Extent;
  }

  // ---- Against the log

  lemma CallsUnfold(ext: int, off: int, n: int)
    requires 0 < n
    ensures var c := Chunk(off, n);
      && 0 < c <= n && off % BSIZE + c <= BSIZE && (off % BSIZE + n <= BSIZE ==> c == n)
      && (off % BSIZE + n > BSIZE ==> (off + c) % BSIZE == 0)
      && NewCalls(ext, off, n) == 1 + CallsAt(ext, off / BSIZE) + NewCalls(Max(ext, off + c), off + c, n - c)
  {
    ChunkFits(off, n);
  }

  lemma CallsAtMost(ext: int, bn: int)
    ensures CallsAt(ext, bn) <= 5
    ensures NDIRECT * BSIZE < ext ==> CallsAt(ext, bn) <= 3
    ensures bn * BSIZE < ext ==> CallsAt(ext, bn) == 0
  {
  }

  /** At most a block's worth of bytes: eight calls. */
  lemma SmallWrite(size: int, off: int, n: int)
    requires 0 <= off <= size && 0 <= n <= BSIZE
    ensures Calls(size, off, n) <= 8
  {
    if n == 0 { return; }
    CallsUnfold(size, off, n);
    CallsAtMost(size, off / BSIZE);
    var c := Chunk(off, n);
    var ext := Max(size, off + c);
    if c < n {
      CallsUnfold(ext, off + c, n - c);
      CallsAtMost(ext, (off + c) / BSIZE);
      assert off % BSIZE != 0 && off / BSIZE * BSIZE < size;
    }
    hide NewCalls, Chunk, CallsAt;
  }

  /** Appending whole blocks behind the first indirect one takes four calls each. */
  lemma {:induction false} AppendCalls(ext: int, k: nat)
    requires NDIRECT * BSIZE < ext && ext % BSIZE == 0
    ensures NewCalls(ext, ext, k * BSIZE) == 4 * k
    decreases k
  {
    if k > 0 {
      CallsUnfold(ext, ext, k * BSIZE);
      assert Chunk(ext, k * BSIZE) == BSIZE;
      assert CallsAt(ext, ext / BSIZE) == 3;
      AppendCalls(ext + BSIZE, k - 1);
    }
  }

  /** Appending k blocks to a file that fills its direct blocks: four calls each, two for the indirect block
      and one for the inode. */
  lemma FirstIndirectCalls(k: nat)
    requires 0 < k
    ensures Calls(NDIRECT * BSIZE, NDIRECT * BSIZE, k * BSIZE) == 4 * k + 3
  {
    var ext := NDIRECT * BSIZE;
    CallsUnfold(ext, ext, k * BSIZE);
    assert Chunk(ext, k * BSIZE) == BSIZE && CallsAt(ext, ext / BSIZE) == 5;
    AppendCalls(ext + BSIZE, k - 1);
    hide NewCalls;
  }

  lemma MoreThanABlock(n: int)
    requires BSIZE < n
    ensures Calls(NDIRECT * BSIZE, NDIRECT * BSIZE, n) > LogRecovery.MAXOPBLOCKS
  {
    var ext := NDIRECT * BSIZE;
    CallsUnfold(ext, ext, n);
    assert Chunk(ext, n) == BSIZE && CallsAt(ext, ext / BSIZE) == 5;
    CallsUnfold(ext + BSIZE, ext + BSIZE, n - BSIZE);
    assert CallsAt(ext + BSIZE, (ext + BSIZE) / BSIZE) == 3;
    hide NewCalls;
  }

  lemma FourBlocks(n: int)
    requires 4 * BSIZE <= n
    ensures Calls(0, 0, n) > LogRecovery.MAXOPBLOCKS
  {
    CallsUnfold(0, 0, n);
    CallsUnfold(BSIZE, BSIZE, n - BSIZE);
    CallsUnfold(2 * BSIZE, 2 * BSIZE, n - 2 * BSIZE);
    CallsUnfold(3 * BSIZE, 3 * BSIZE, n - 3 * BSIZE);
    assert CallsAt(0, 0) == CallsAt(BSIZE, 1) == CallsAt(2 * BSIZE, 2) == CallsAt(3 * BSIZE, 3) == 2;
    hide NewCalls;
  }

  /** A writei of n bytes stays within the log space of one operation, whatever the file and the offset, if and
      only if n is at most one block. */
  lemma WithinBudgetIff(n: int)
    requires 0 <= n <= MAXBYTES
    ensures (forall size, off {:trigger Calls(size, off, n)} ::
               0 <= off <= size <= MAXBYTES && off + n <= MAXBYTES ==> Calls(size, off, n) <= LogRecovery.MAXOPBLOCKS)
            <==> n <= BSIZE
  {
    var full := NDIRECT * BSIZE;
    if n <= BSIZE {
      forall size, off | 0 <= off <= size <= MAXBYTES ensures Calls(size, off, n) <= LogRecovery.MAXOPBLOCKS {
        SmallWrite(size, off, n);
      }
    } else if full + n <= MAXBYTES {
      MoreThanABlock(n);
    } else {
      FourBlocks(n);
    }
  }

  // ---- A file system to see it in

  /** One file that fills its twelve direct blocks, and k free blocks behind it. */
  function FullDirect(k: nat): Fs
  {
    var bits := [seq(BITMAP_BYTES, y => if y == 0 then 0xFF else if y == 1 then 0x3F else 0)];
    var inode := Inode(2, 1, NDIRECT * BSIZE, seq(NDIRECT + 1, x => if x < NDIRECT then x + 2 else 0));
    Fs(2, bits, seq(14 + k, _ => ZeroBlock()), [inode], [inode])
  }

  lemma FirstUsed(k: nat, b: int)
    requires k <= 100
    ensures 0 <= b < 14 + k ==> (Used(FullDirect(k).bits, b) <==> b < 14)
  {
    if 0 <= b < 14 + k {
      var bits := FullDirect(k).bits;
      assert BlockOf(b) == 0 && ByteOf(b) == b / 8 && BitOf(b) == b % 8;
      assert bits[0][b / 8] == if b < 8 then 0xFF else if b < 16 then 0x3F else 0;
    }
  }

  lemma FullDirectOk(k: nat)
    requires k <= 100
    ensures Inv(FullDirect(k)) && HasInode(FullDirect(k), 0)
  {
    var fs := FullDirect(k);
    forall b ensures BlockAt(fs, b) { }
    forall b ensures MetaAt(fs, b) { FirstUsed(k, b); }
    forall i, l ensures Ref(fs, i, l) == if i == 0 && 0 <= l < NDIRECT then l + 2 else 0 { }
    hide Ref, FullDirect;
    forall i, l ensures RefAt(fs, i, l) { FirstUsed(k, l + 2); }
    forall i, l, j, m ensures InjAt(fs, i, l, j, m) { }
    forall n ensures ExtentAt(fs, 0, NDIRECT * BSIZE, n) { }
    forall i ensures InodeOk(fs, i) { }
  }

  lemma {:induction false} FullDirectFrees(k: nat, n: nat)
    requires k <= 100 && n <= 14 + k
    ensures Frees(FullDirect(k).bits, n) == if n < 14 then 0 else n - 14
  {
    if n > 0 {
      FullDirectFrees(k, n - 1);
      FirstUsed(k, n - 1);
    }
  }

  /** filewrite's chunk of 13 blocks, appended there, makes 55 log_write calls in one operation. */
  lemma FilewriteOverBudget(src: seq<int>)
    requires Bytes(src) && |src| == MAXCHUNK
    ensures var fs := FullDirect(14); var off := NDIRECT * BSIZE;
      && Inv(fs) && HasInode(fs, 0) && |fs.dinodes| == |fs.inodes|
      && Writei(fs, 0, src, off).Wrote? && WriteiCalls(fs, 0, src, off) == 55 > LogRecovery.MAXOPBLOCKS
  {
    hide FullDirect, Frees, NewBlocks, NewCalls, Calls, Inv, HasInode, Writei, WriteiCalls, Bytes;
    FullDirectOk(14);
    FullDirectShape(14);
    FullDirectFrees(14, 28);
    WriteiCost(FullDirect(14), 0, src, NDIRECT * BSIZE);
    FirstIndirectCalls(13);
    FirstIndirectBlocks(13);
  }

  lemma FullDirectShape(k: nat)
    ensures var fs := FullDirect(k);
      |fs.inodes| == 1 && fs.inodes[0].size == NDIRECT * BSIZE && |fs.data| == 14 + k && |fs.dinodes| == |fs.inodes|
  {
  }

  lemma FirstIndirectBlocks(k: nat)
    requires 0 < k
    ensures NewBlocks(NDIRECT * BSIZE, NDIRECT * BSIZE, k * BSIZE) == k + 1
  {
    var ext := NDIRECT * BSIZE;
    assert Chunk(ext, k * BSIZE) == BSIZE && BlocksAt(ext, ext / BSIZE) == 2;
    AppendBlocks(ext + BSIZE, k - 1);
  }

  lemma {:induction false} AppendBlocks(ext: int, k: nat)
    requires NDIRECT * BSIZE < ext && ext % BSIZE == 0
    ensures NewBlocks(ext, ext, k * BSIZE) == k
    decreases k
  {
    if k > 0 {
      assert Chunk(ext, k * BSIZE) == BSIZE && BlocksAt(ext, ext / BSIZE) == 1;
      AppendBlocks(ext + BSIZE, k - 1);
    }
  }
}
