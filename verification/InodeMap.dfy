/** Which disk blocks belong to which inode (fs.c): direct addresses, the indirect block and its
    entries, and the bitmap that records which blocks are in use.
 */
module InodeMap {
  import opened Bitmap

  const BSIZE := 512
  const NDIRECT := 12
  const NINDIRECT := 128
  const MAXFILE := NDIRECT + NINDIRECT
  const TWO32 := 0x1_0000_0000

  /** The bytes of a disk block. */
  type Block = seq<int>

  predicate IsBlock(block: Block)
  {
    |block| == BSIZE && forall x :: 0 <= x < BSIZE ==> 0 <= block[x] < 256
  }

  function ZeroBlock(): (block: Block)
    ensures IsBlock(block)
  {
    seq(BSIZE, _ => 0)
  }

  // ---- A block read as little-endian 32-bit words

  function Word(block: Block, e: int): int
    requires |block| == BSIZE && 0 <= e < NINDIRECT
  {
    block[4 * e] + 0x100 * block[4 * e + 1] + 0x1_0000 * block[4 * e + 2] + 0x100_0000 * block[4 * e + 3]
  }

  function PutWord(block: Block, e: int, w: int): (r: Block)
    requires |block| == BSIZE && 0 <= e < NINDIRECT
    ensures |r| == BSIZE
  {
    block[4 * e := w % 0x100][4 * e + 1 := w / 0x100 % 0x100]
         [4 * e + 2 := w / 0x1_0000 % 0x100][4 * e + 3 := w / 0x100_0000 % 0x100]
  }

  lemma PutWordBytes(block: Block, e: int, w: int)
    requires IsBlock(block) && 0 <= e < NINDIRECT && 0 <= w < TWO32
    ensures IsBlock(PutWord(block, e, w))
  {
  }

  lemma PutWordOnly(block: Block, e: int, w: int, f: int)
    requires |block| == BSIZE && 0 <= e < NINDIRECT && 0 <= w < TWO32 && 0 <= f < NINDIRECT
    ensures Word(PutWord(block, e, w), f) == if f == e then w else Word(block, f)
  {
    if f == e {
      FourBytes(w);
    } else {
      assert forall x :: 4 * f <= x < 4 * f + 4 ==> PutWord(block, e, w)[x] == block[x];
    }
  }

  lemma FourBytes(w: int)
    requires 0 <= w < TWO32
    ensures w % 0x100 + 0x100 * (w / 0x100 % 0x100) + 0x1_0000 * (w / 0x1_0000 % 0x100)
              + 0x100_0000 * (w / 0x100_0000 % 0x100) == w
  {
  }

  // ---- File system state

  /** `kind` is the type, 0 for a free inode. */
  datatype Inode = Inode(kind: int, nlink: int, size: int, addrs: seq<int>)

  /** `inodes` are the in-memory inodes, `dinodes` their copies on disk.  Blocks below `meta` hold the
      superblock, the inodes and the bitmap. */
  datatype Fs = Fs(meta: int, bits: Bits, data: seq<Block>, inodes: seq<Inode>, dinodes: seq<Inode>)

  // Slots of an inode: 0..11 direct, 12 the indirect block, 13..140 its entries.
  const SLOTS := NDIRECT + 1 + NINDIRECT

  predicate HasInode(fs: Fs, i: int)
  {
    0 <= i < |fs.inodes| && |fs.inodes[i].addrs| == NDIRECT + 1
  }

  function Entry(data: seq<Block>, a: int, e: int): int
  {
    if 0 < a < |data| && |data[a]| == BSIZE && 0 <= e < NINDIRECT then Word(data[a], e) else 0
  }

  /** The block in slot k of inode i; 0 for none. */
  function Ref(fs: Fs, i: int, k: int): int
  {
    if !HasInode(fs, i) || k < 0 then 0
    else if k <= NDIRECT then fs.inodes[i].addrs[k]
    else Entry(fs.data, fs.inodes[i].addrs[NDIRECT], k - NDIRECT - 1)
  }

  predicate InodeAt(fs: Fs, i: int)
  {
    0 <= i < |fs.inodes| ==> |fs.inodes[i].addrs| == NDIRECT + 1
  }

  predicate BlockAt(fs: Fs, b: int)
  {
    0 <= b < |fs.data| ==> IsBlock(fs.data[b])
  }

  /** The bitmap has a bit for every block. */
  predicate Sized(fs: Fs)
  {
    Shaped(fs.bits) && |fs.data| <= |fs.bits| * BPB
  }

  ghost predicate Shape(fs: Fs)
  {
    && 0 < fs.meta <= |fs.data| < TWO32
    && Sized(fs)
    && |fs.dinodes| == |fs.inodes|
    && (forall i {:trigger InodeAt(fs, i)} :: InodeAt(fs, i))
    && (forall b {:trigger BlockAt(fs, b)} :: BlockAt(fs, b))
  }

  /** mkfs marks the blocks before the data in use. */
  predicate MetaAt(fs: Fs, b: int)
  {
    0 <= b < fs.meta ==> Used(fs.bits, b)
  }

  /** A block in a slot is a data block whose bit is set. */
  predicate RefAt(fs: Fs, i: int, k: int)
  {
    Ref(fs, i, k) != 0 ==> fs.meta <= Ref(fs, i, k) < |fs.data| && Used(fs.bits, Ref(fs, i, k))
  }

  /** No block is in two places. */
  predicate InjAt(fs: Fs, i: int, k: int, j: int, l: int)
  {
    Ref(fs, i, k) != 0 && Ref(fs, i, k) == Ref(fs, j, l) ==> i == j && k == l
  }

  ghost predicate Owned(fs: Fs)
  {
    && Shape(fs)
    && (forall b {:trigger MetaAt(fs, b)} :: MetaAt(fs, b))
    && (forall i, k {:trigger RefAt(fs, i, k)} :: RefAt(fs, i, k))
    && (forall i, k, j, l {:trigger InjAt(fs, i, k, j, l)} :: InjAt(fs, i, k, j, l))
  }

  // ---- Allocation

  /** What balloc does to block b: set its bit, zero it. */
  function Allocate(fs: Fs, b: int): Fs
    requires Sized(fs) && 0 <= b < |fs.data|
  {
    WithinData(fs, b);
    fs.(bits := Mark(fs.bits, b), data := fs.data[b := ZeroBlock()])
  }

  function SetSlot(fs: Fs, i: int, k: int, b: int): Fs
    requires HasInode(fs, i) && 0 <= k < SLOTS
  {
    if k <= NDIRECT then fs.(inodes := fs.inodes[i := fs.inodes[i].(addrs := fs.inodes[i].addrs[k := b])])
    else
      var a := fs.inodes[i].addrs[NDIRECT];
      if 0 < a < |fs.data| && |fs.data[a]| == BSIZE
      then fs.(data := fs.data[a := PutWord(fs.data[a], k - NDIRECT - 1, b)]) else fs
  }

  /** Block b can go into slot k of inode i. */
  ghost predicate CanInstall(fs: Fs, i: int, k: int, b: int)
  {
    && Owned(fs) && HasInode(fs, i) && 0 <= k < SLOTS && Ref(fs, i, k) == 0
    && (k > NDIRECT ==> Ref(fs, i, NDIRECT) != 0)
    && 0 <= b < |fs.data| && !Used(fs.bits, b)
  }

  function Install(fs: Fs, i: int, k: int, b: int): Fs
    requires Sized(fs) && 0 <= b < |fs.data| && HasInode(fs, i) && 0 <= k < SLOTS
  {
    SetSlot(Allocate(fs, b), i, k, b)
  }

  lemma WithinData(fs: Fs, b: int)
    requires Sized(fs) && 0 <= b < |fs.data|
    ensures Within(fs.bits, b)
  {
  }

  /** A free block is not the indirect block of anyone. */
  lemma AllocateRef(fs: Fs, b: int, j: int, l: int)
    requires Owned(fs) && 0 <= b < |fs.data| && !Used(fs.bits, b)
    ensures Ref(Allocate(fs, b), j, l) == Ref(fs, j, l)
  {
    hide Used, Mark, Word;
    assert RefAt(fs, j, NDIRECT);
  }

  lemma SetSlotRef(fs: Fs, i: int, k: int, b: int, j: int, l: int)
    requires Shape(fs) && HasInode(fs, i) && 0 <= k < SLOTS && Ref(fs, i, k) == 0
    requires 0 < b < |fs.data| && fs.data[b] == ZeroBlock()
    requires k > NDIRECT ==> 0 < Ref(fs, i, NDIRECT) < |fs.data| && InjAt(fs, i, NDIRECT, j, NDIRECT)
    ensures Ref(SetSlot(fs, i, k, b), j, l) == if j == i && l == k then b else Ref(fs, j, l)
  {
    hide Used;
    if k > NDIRECT {
      var a := fs.inodes[i].addrs[NDIRECT];
      assert BlockAt(fs, a);
      if j == i && NDIRECT < l < SLOTS {
        PutWordOnly(fs.data[a], k - NDIRECT - 1, b, l - NDIRECT - 1);
      }
      hide Word, PutWord;
    }
  }

  lemma InstallRef(fs: Fs, i: int, k: int, b: int, j: int, l: int)
    requires CanInstall(fs, i, k, b)
    ensures b != 0 && Ref(Install(fs, i, k, b), j, l) == if j == i && l == k then b else Ref(fs, j, l)
  {
    var fs1 := Allocate(fs, b);
    assert MetaAt(fs, 0) && RefAt(fs, i, NDIRECT) && InjAt(fs, i, NDIRECT, j, NDIRECT);
    AllocateRef(fs, b, i, NDIRECT);
    AllocateRef(fs, b, j, NDIRECT);
    AllocateRef(fs, b, i, k);
    AllocateRef(fs, b, j, l);
    AllocateShape(fs, b);
    SetSlotRef(fs1, i, k, b, j, l);
  }

  lemma AllocateShape(fs: Fs, b: int)
    requires Shape(fs) && 0 <= b < |fs.data|
    ensures Shape(Allocate(fs, b))
  {
    var fs' := Allocate(fs, b);
    WithinData(fs, b);
    MarkOnly(fs.bits, b, b);
    hide Mark, IsBlock;
    forall x ensures BlockAt(fs', x) { assert BlockAt(fs, x); }
    forall i ensures InodeAt(fs', i) { assert InodeAt(fs, i); }
  }

  lemma SetSlotShape(fs: Fs, i: int, k: int, b: int)
    requires Shape(fs) && HasInode(fs, i) && 0 <= k < SLOTS && 0 <= b < |fs.data|
    ensures Shape(SetSlot(fs, i, k, b))
  {
    var fs' := SetSlot(fs, i, k, b);
    forall x ensures BlockAt(fs', x) {
      assert BlockAt(fs, x);
      if k > NDIRECT && x == fs.inodes[i].addrs[NDIRECT] && 0 < x < |fs.data| {
        PutWordBytes(fs.data[x], k - NDIRECT - 1, b);
      }
    }
    forall j ensures InodeAt(fs', j) { assert InodeAt(fs, j); }
  }

  /** Allocation keeps ownership: no block gets a second owner. */
  lemma InstallKeeps(fs: Fs, i: int, k: int, b: int)
    requires CanInstall(fs, i, k, b)
    ensures Owned(Install(fs, i, k, b))
  {
    var fs' := Install(fs, i, k, b);
    AllocateShape(fs, b);
    SetSlotShape(Allocate(fs, b), i, k, b);
    InstallBits(fs, i, k, b);
    hide Shape, Install, Ref, Used;
    forall x ensures MetaAt(fs', x) { assert MetaAt(fs, x); }
    assert b >= fs.meta by { assert MetaAt(fs, b); }
    forall j, l ensures RefAt(fs', j, l) {
      assert RefAt(fs, j, l);
      InstallRef(fs, i, k, b, j, l);
    }
    forall j, l, m, n ensures InjAt(fs', j, l, m, n) {
      assert InjAt(fs, j, l, m, n) && RefAt(fs, j, l) && RefAt(fs, m, n);
      InstallRef(fs, i, k, b, j, l);
      InstallRef(fs, i, k, b, m, n);
    }
  }

  lemma InstallBits(fs: Fs, i: int, k: int, b: int)
    requires Shape(fs) && 0 <= b < |fs.data| && HasInode(fs, i) && 0 <= k < SLOTS
    ensures var fs' := Install(fs, i, k, b);
      && fs'.meta == fs.meta && |fs'.data| == |fs.data|
      && forall c :: Used(fs'.bits, c) <==> c == b || Used(fs.bits, c)
  {
    WithinData(fs, b);
    forall c ensures Used(Mark(fs.bits, b), c) <==> c == b || Used(fs.bits, c) {
      MarkOnly(fs.bits, b, c);
    }
  }

  /** Allocation writes the new block and, for an indirect entry, the indirect block. */
  lemma InstallData(fs: Fs, i: int, k: int, b: int, a: int)
    requires CanInstall(fs, i, k, b) && 0 <= a < |fs.data|
    requires a != b && (k > NDIRECT ==> a != Ref(fs, i, NDIRECT))
    ensures Install(fs, i, k, b).data[a] == fs.data[a]
  {
    hide Used, Mark;
  }

  lemma InstallZero(fs: Fs, i: int, k: int, b: int)
    requires CanInstall(fs, i, k, b)
    ensures Install(fs, i, k, b).data[b] == ZeroBlock()
  {
    assert RefAt(fs, i, NDIRECT);
  }

  // ---- bmap

  datatype Mapped = Mapped(fs: Fs, addr: int) | OutOfBlocks(fs: Fs)

  /** The block in a slot, allocated if there is none. */
  function Demand(fs: Fs, i: int, k: int): Mapped
    requires Sized(fs) && HasInode(fs, i) && 0 <= k < SLOTS
  {
    if Ref(fs, i, k) != 0 then Mapped(fs, Ref(fs, i, k))
    else
      var b := LeastFree(fs.bits, |fs.data|, 0);
      if b == NONE then OutOfBlocks(fs) else Mapped(Install(fs, i, k, b), b)
  }

  /** The slot of the nth data block. */
  function DataSlot(bn: int): int
  {
    if bn < NDIRECT then bn else bn + 1
  }

  lemma DemandShape(fs: Fs, i: int, k: int)
    requires Sized(fs) && HasInode(fs, i) && 0 <= k < SLOTS
    ensures Sized(Demand(fs, i, k).fs) && HasInode(Demand(fs, i, k).fs, i)
  {
    var b := LeastFree(fs.bits, |fs.data|, 0);
    if Ref(fs, i, k) == 0 && b != NONE {
      WithinData(fs, b);
      MarkOnly(fs.bits, b, b);
    }
  }

  function Bmap(fs: Fs, i: int, bn: int): Mapped
    requires Sized(fs) && HasInode(fs, i) && 0 <= bn < MAXFILE
  {
    if bn < NDIRECT then Demand(fs, i, bn)
    else
      var m := Demand(fs, i, NDIRECT);
      DemandShape(fs, i, NDIRECT);
      if m.OutOfBlocks? then m else Demand(m.fs, i, DataSlot(bn))
  }

  /** Inode i has the type and the link count it had. */
  predicate SameLinks(fs: Fs, fs': Fs, i: int)
  {
    && 0 <= i < |fs.inodes| && 0 <= i < |fs'.inodes|
    && fs'.inodes[i].kind == fs.inodes[i].kind && fs'.inodes[i].nlink == fs.inodes[i].nlink
  }

  /** fs' has more blocks than fs in inode i, all in slots that were empty; nothing else that was
      in use has changed, but for the indirect block of i. */
  ghost predicate Grown(fs: Fs, fs': Fs, i: int)
  {
    && fs'.meta == fs.meta && |fs'.data| == |fs.data| && fs'.dinodes == fs.dinodes
    && |fs'.inodes| == |fs.inodes|
    && (forall j :: 0 <= j < |fs.inodes| ==> fs'.inodes[j] == fs.inodes[j].(addrs := fs'.inodes[j].addrs))
    && (forall j :: 0 <= j < |fs.inodes| && j != i ==> fs'.inodes[j] == fs.inodes[j])
    && (forall j, l {:trigger KeptAt(fs, fs', i, j, l)} :: KeptAt(fs, fs', i, j, l))
  }

  predicate KeptAt(fs: Fs, fs': Fs, i: int, j: int, l: int)
  {
    && (j != i || Ref(fs, j, l) != 0 ==> Ref(fs', j, l) == Ref(fs, j, l))
    && (l != NDIRECT && 0 < Ref(fs, j, l) < |fs.data| == |fs'.data| ==>
          fs'.data[Ref(fs, j, l)] == fs.data[Ref(fs, j, l)])
  }

  lemma InstallGrows(fs: Fs, i: int, k: int, b: int)
    requires CanInstall(fs, i, k, b)
    ensures Grown(fs, Install(fs, i, k, b), i)
  {
    var fs' := Install(fs, i, k, b);
    InstallBits(fs, i, k, b);
    assert fs'.dinodes == fs.dinodes && |fs'.inodes| == |fs.inodes|;
    forall j, l ensures KeptAt(fs, fs', i, j, l) {
      InstallRef(fs, i, k, b, j, l);
      assert RefAt(fs, j, l) && InjAt(fs, j, l, i, NDIRECT);
      var a := Ref(fs, j, l);
      if l != NDIRECT && 0 < a < |fs.data| {
        InstallData(fs, i, k, b, a);
      }
    }
  }

  lemma GrownTwice(fs: Fs, fs1: Fs, fs2: Fs, i: int)
    requires Grown(fs, fs1, i) && Grown(fs1, fs2, i)
    ensures Grown(fs, fs2, i)
  {
    forall j, l ensures KeptAt(fs, fs2, i, j, l) {
      assert KeptAt(fs, fs1, i, j, l) && KeptAt(fs1, fs2, i, j, l);
    }
  }

  lemma LeastIsFree(fs: Fs)
    requires Sized(fs)
    ensures var b := LeastFree(fs.bits, |fs.data|, 0);
      if b == NONE then forall c :: 0 <= c < |fs.data| ==> Used(fs.bits, c) else !Used(fs.bits, b)
  {
    var b := LeastFree(fs.bits, |fs.data|, 0);
    if b == NONE {
      forall c | 0 <= c < |fs.data| ensures Used(fs.bits, c) { LeastFreeIs(fs.bits, |fs.data|, 0, c); }
    } else {
      LeastFreeIs(fs.bits, |fs.data|, 0, b);
    }
  }

  /** The bitmap does not mark the log, so balloc can hand out a block of the log or beyond; it does so exactly
      when no block before the log is free and some later one is. */
  lemma BallocInLogIff(fs: Fs, logstart: int)
    requires Sized(fs) && 0 <= logstart <= |fs.data|
    ensures var b := LeastFree(fs.bits, |fs.data|, 0);
      (b != NONE && logstart <= b) <==>
        && (forall c :: 0 <= c < logstart ==> Used(fs.bits, c))
        && exists c :: logstart <= c < |fs.data| && !Used(fs.bits, c)
  {
    var b := LeastFree(fs.bits, |fs.data|, 0);
    forall c | 0 <= c < (if b == NONE then |fs.data| else b) ensures Used(fs.bits, c) {
      LeastFreeIs(fs.bits, |fs.data|, 0, c);
    }
    if b != NONE { LeastFreeIs(fs.bits, |fs.data|, 0, b); }
  }

  /** A disk of ten blocks, eight of them in use, and no file. */
  function SmallDisk(): Fs
  {
    var bits := [seq(BITMAP_BYTES, y => if y == 0 then 0xFF else 0)];
    Fs(8, bits, seq(10, _ => ZeroBlock()), [], [])
  }

  /** With the log on its last two blocks, balloc hands out the first block of the log. */
  lemma BallocInLogExample()
    ensures Owned(SmallDisk()) && LeastFree(SmallDisk().bits, 10, 0) == 8
  {
    var fs := SmallDisk();
    assert fs.bits[0][0] == 0xFF && fs.bits[0][1] == 0;
    forall b ensures BlockAt(fs, b) { }
    forall b ensures MetaAt(fs, b) { if 0 <= b < 8 { FullByte(fs.bits, b); } }
    assert !Used(fs.bits, 8);
    LeastFreeIs(fs.bits, 10, 0, 8);
    forall c | 0 <= c < 8 ensures Used(fs.bits, c) { assert MetaAt(fs, c); }
    forall i, k ensures RefAt(fs, i, k) { }
    forall i, k, j, l ensures InjAt(fs, i, k, j, l) { }
  }

  lemma FullByte(bits: Bits, b: int)
    requires 0 <= b < 8 && |bits| > 0 && |bits[0]| == BITMAP_BYTES && bits[0][0] == 0xFF
    ensures Used(bits, b)
  {
  }

  ghost predicate DiskFull(fs: Fs)
  {
    forall c :: 0 <= c < |fs.data| ==> Used(fs.bits, c)
  }

  lemma DemandKeeps(fs: Fs, i: int, k: int)
    requires Owned(fs) && HasInode(fs, i) && 0 <= k < SLOTS && (k > NDIRECT ==> Ref(fs, i, NDIRECT) != 0)
    ensures var m := Demand(fs, i, k);
      && Owned(m.fs) && Grown(fs, m.fs, i)
      && (m.OutOfBlocks? ==> m.fs == fs && DiskFull(fs))
      && (m.Mapped? ==> 0 < m.addr < |m.fs.data| && m.addr == Ref(m.fs, i, k))
      && (m.Mapped? && Ref(fs, i, k) == 0 ==> m.fs.data[m.addr] == ZeroBlock())
      && (m.Mapped? ==> forall j, l :: (j, l) != (i, k) ==> Ref(m.fs, j, l) == Ref(fs, j, l))
  {
    LeastIsFree(fs);
    var b := LeastFree(fs.bits, |fs.data|, 0);
    assert Grown(fs, fs, i) by { forall j, l ensures KeptAt(fs, fs, i, j, l) { } }
    assert RefAt(fs, i, k) && MetaAt(fs, 0);
    hide Install, Ref, Used;
    if Ref(fs, i, k) == 0 && b != NONE {
      InstallKeeps(fs, i, k, b);
      InstallGrows(fs, i, k, b);
      InstallZero(fs, i, k, b);
      InstallRef(fs, i, k, b, i, k);
      forall j, l | (j, l) != (i, k) ensures Ref(Install(fs, i, k, b), j, l) == Ref(fs, j, l) {
        InstallRef(fs, i, k, b, j, l);
      }
    }
  }

  /** bmap gives data block bn a block of its own, zeroed if it is new, and disturbs nothing else; the inode keeps
      its type, links and size.  It fails only on a full disk. */
  lemma BmapKeeps(fs: Fs, i: int, bn: int)
    requires Owned(fs) && HasInode(fs, i) && 0 <= bn < MAXFILE
    ensures var m := Bmap(fs, i, bn);
      && Owned(m.fs) && Grown(fs, m.fs, i) && SameLinks(fs, m.fs, i)
      && (m.OutOfBlocks? ==> DiskFull(m.fs))
      && (m.Mapped? ==> 0 < m.addr < |m.fs.data| && m.addr == Ref(m.fs, i, DataSlot(bn)))
      && (m.Mapped? && Ref(fs, i, DataSlot(bn)) == 0 ==> m.fs.data[m.addr] == ZeroBlock())
      && (m.Mapped? && bn >= NDIRECT ==> Ref(m.fs, i, NDIRECT) != 0)
      && (m.Mapped? ==>
            forall j, l :: (j, l) != (i, DataSlot(bn)) && (bn < NDIRECT || (j, l) != (i, NDIRECT)) ==>
              Ref(m.fs, j, l) == Ref(fs, j, l))
  {
    if bn < NDIRECT {
      DemandKeeps(fs, i, bn);
    } else {
      DemandKeeps(fs, i, NDIRECT);
      DemandShape(fs, i, NDIRECT);
      var m := Demand(fs, i, NDIRECT);
      if m.Mapped? {
        DemandKeeps(m.fs, i, DataSlot(bn));
        GrownTwice(fs, m.fs, Demand(m.fs, i, DataSlot(bn)).fs, i);
      }
    }
  }

  /** A block that is there is found without allocating. */
  lemma BmapFinds(fs: Fs, i: int, bn: int)
    requires Sized(fs) && HasInode(fs, i) && 0 <= bn < MAXFILE && Ref(fs, i, DataSlot(bn)) != 0
    requires bn >= NDIRECT ==> Ref(fs, i, NDIRECT) != 0
    ensures Bmap(fs, i, bn) == Mapped(fs, Ref(fs, i, DataSlot(bn)))
  {
  }

  // ---- itrunc

  /** The order in which itrunc frees the slots: direct, entries, indirect block. */
  function FreeOrder(p: int): int
  {
    if p < NDIRECT then p else if p < SLOTS - 1 then p + 1 else NDIRECT
  }

  /** What bfree does to the bit of block b. */
  function Bfree(bits: Bits, b: int): Bits
  {
    if Within(bits, b) then Clear(bits, b) else bits
  }

  /** The bitmap when p slots of inode i have been freed. */
  function FreedBits(fs: Fs, i: int, p: nat): Bits
  {
    if p == 0 then fs.bits
    else
      var b := Ref(fs, i, FreeOrder(p - 1));
      if b != 0 then Bfree(FreedBits(fs, i, p - 1), b) else FreedBits(fs, i, p - 1)
  }

  function Emptied(x: Inode): Inode
  {
    x.(size := 0, addrs := seq(NDIRECT + 1, _ => 0))
  }

  function Trunc(fs: Fs, i: int): Fs
    requires HasInode(fs, i) && |fs.dinodes| == |fs.inodes|
  {
    var x := Emptied(fs.inodes[i]);
    fs.(bits := FreedBits(fs, i, SLOTS), inodes := fs.inodes[i := x], dinodes := fs.dinodes[i := x])
  }

  ghost predicate InSlotBelow(fs: Fs, i: int, p: int, c: int)
  {
    exists q {:trigger FreeOrder(q)} :: 0 <= q < p && Ref(fs, i, FreeOrder(q)) == c && c != 0
  }

  lemma {:induction false} FreedBitsAre(fs: Fs, i: int, p: nat, c: int)
    requires Owned(fs) && p <= SLOTS
    ensures Shaped(FreedBits(fs, i, p)) && |FreedBits(fs, i, p)| == |fs.bits|
    ensures Used(FreedBits(fs, i, p), c) <==> Used(fs.bits, c) && !InSlotBelow(fs, i, p, c)
  {
    if p > 0 {
      var b := Ref(fs, i, FreeOrder(p - 1));
      FreedBitsAre(fs, i, p - 1, c);
      assert RefAt(fs, i, FreeOrder(p - 1));
      if b != 0 {
        WithinData(fs.(bits := FreedBits(fs, i, p - 1)), b);
        ClearOnly(FreedBits(fs, i, p - 1), b, c);
      }
      BelowStep(fs, i, p, c);
    }
  }

  lemma BelowStep(fs: Fs, i: int, p: int, c: int)
    requires 0 < p
    ensures InSlotBelow(fs, i, p, c) <==>
            InSlotBelow(fs, i, p - 1, c) || (Ref(fs, i, FreeOrder(p - 1)) == c && c != 0)
  {
    if InSlotBelow(fs, i, p, c) {
      var q :| 0 <= q < p && Ref(fs, i, FreeOrder(q)) == c && c != 0;
      assert q < p - 1 ==> InSlotBelow(fs, i, p - 1, c);
    }
  }

  /** Each bfree of itrunc finds the bit set: the panic on freeing a free block is unreachable. */
  lemma NeverFreesFree(fs: Fs, i: int, p: nat)
    requires Owned(fs) && p < SLOTS && Ref(fs, i, FreeOrder(p)) != 0
    ensures Used(FreedBits(fs, i, p), Ref(fs, i, FreeOrder(p)))
  {
    var b := Ref(fs, i, FreeOrder(p));
    FreedBitsAre(fs, i, p, b);
    assert RefAt(fs, i, FreeOrder(p));
    assert forall q {:trigger FreeOrder(q)} :: 0 <= q < p ==> InjAt(fs, i, FreeOrder(q), i, FreeOrder(p));
  }

  /** itrunc clears the bits of the inode's own blocks and no others. */
  lemma TruncFrees(fs: Fs, i: int, c: int)
    requires Owned(fs) && HasInode(fs, i)
    ensures Used(Trunc(fs, i).bits, c) <==> Used(fs.bits, c) && !(exists k :: Ref(fs, i, k) == c && c != 0)
  {
    FreedBitsAre(fs, i, SLOTS, c);
    if exists k :: Ref(fs, i, k) == c && c != 0 {
      var k :| Ref(fs, i, k) == c && c != 0;
      var q := if k < NDIRECT then k else if k == NDIRECT then SLOTS - 1 else k - 1;
      assert FreeOrder(q) == k && 0 <= q < SLOTS;
      assert InSlotBelow(fs, i, SLOTS, c);
    }
  }

  lemma TruncRef(fs: Fs, i: int, j: int, k: int)
    requires HasInode(fs, i) && |fs.dinodes| == |fs.inodes|
    ensures Ref(Trunc(fs, i), j, k) == if j == i then 0 else Ref(fs, j, k)
  {
    hide FreedBits;
  }

  lemma TruncKeeps(fs: Fs, i: int)
    requires Owned(fs) && HasInode(fs, i)
    ensures Owned(Trunc(fs, i))
  {
    var fs' := Trunc(fs, i);
    FreedBitsAre(fs, i, SLOTS, 0);
    forall x ensures BlockAt(fs', x) { assert BlockAt(fs, x); }
    forall j ensures InodeAt(fs', j) { assert InodeAt(fs, j); }
    forall b ensures MetaAt(fs', b) {
      assert MetaAt(fs, b);
      TruncFrees(fs, i, b);
      assert forall k :: Ref(fs, i, k) == b && b != 0 ==> RefAt(fs, i, k);
    }
    forall j, k ensures RefAt(fs', j, k) {
      assert RefAt(fs, j, k);
      TruncRef(fs, i, j, k);
      TruncFrees(fs, i, Ref(fs, j, k));
      assert forall l :: Ref(fs, i, l) == Ref(fs, j, k) && Ref(fs, j, k) != 0 ==> InjAt(fs, i, l, j, k);
    }
    forall j, k, m, n ensures InjAt(fs', j, k, m, n) {
      assert InjAt(fs, j, k, m, n);
      TruncRef(fs, i, j, k);
      TruncRef(fs, i, m, n);
    }
  }
}
