/** The bytes of a file (fs.c's readi and writei) over the block map. */
module InodeBytes {
  import opened Bitmap
  import opened InodeMap

  const MAXBYTES := MAXFILE * BSIZE

  function Min(a: int, b: int): int
  {
    if a < b then a else b
  }

  function Max(a: int, b: int): int
  {
    if a < b then b else a
  }

  predicate Bytes(s: seq<int>)
  {
    forall x :: 0 <= x < |s| ==> 0 <= s[x] < 256
  }

  // ---- Contents

  /** Exactly the blocks below ext are there: no holes before, nothing behind. */
  predicate ExtentAt(fs: Fs, i: int, ext: int, n: int)
  {
    0 <= n < MAXFILE ==> (Ref(fs, i, DataSlot(n)) != 0 <==> n * BSIZE < ext)
  }

  ghost predicate Extent(fs: Fs, i: int, ext: int)
  {
    && 0 <= ext <= MAXBYTES
    && (Ref(fs, i, NDIRECT) != 0 <==> NDIRECT * BSIZE < ext)
    && forall n {:trigger ExtentAt(fs, i, ext, n)} :: ExtentAt(fs, i, ext, n)
  }

  /** Byte x of inode i. */
  function Byte(fs: Fs, i: int, x: int): int
  {
    var a := Ref(fs, i, DataSlot(x / BSIZE));
    if 0 < a < |fs.data| && |fs.data[a]| == BSIZE then fs.data[a][x % BSIZE] else 0
  }

  function Content(fs: Fs, i: int, n: nat): (r: seq<int>)
    ensures |r| == n
  {
    seq(n, x requires 0 <= x < n => Byte(fs, i, x))
  }

  ghost predicate InodeOk(fs: Fs, i: int)
  {
    0 <= i < |fs.inodes| == |fs.dinodes| ==> Extent(fs, i, fs.inodes[i].size) && fs.dinodes[i] == fs.inodes[i]
  }

  /** What holds between file system calls: ownership, no holes, and inodes equal to their disk copies. */
  ghost predicate Inv(fs: Fs)
  {
    Owned(fs) && forall i {:trigger InodeOk(fs, i)} :: InodeOk(fs, i)
  }

  /** The file: its first size bytes. */
  function File(fs: Fs, i: int): seq<int>
    requires HasInode(fs, i)
  {
    if fs.inodes[i].size <= 0 then [] else Content(fs, i, fs.inodes[i].size)
  }

  /** s written over c from off on, extending it if need be. */
  function Splice(c: seq<int>, off: int, s: seq<int>): (r: seq<int>)
    requires 0 <= off <= |c|
    ensures |r| == Max(|c|, off + |s|)
  {
    c[..off] + s + (if off + |s| < |c| then c[off + |s|..] else [])
  }

  lemma SpliceTwice(c: seq<int>, off: int, s: seq<int>, m: int)
    requires 0 <= off <= |c| && 0 <= m <= |s|
    ensures Splice(Splice(c, off, s[..m]), off + m, s[m..]) == Splice(c, off, s)
  {
    var d := Splice(c, off, s[..m]);
    assert d[..off + m] == c[..off] + s[..m];
    assert s[..m] + s[m..] == s;
  }

  lemma SpliceParts(c: seq<int>, off: int, s: seq<int>, m: int, k: int)
    requires 0 <= off <= |c| && 0 <= m <= k <= |s|
    ensures Splice(Splice(c, off, s[..m]), off + m, s[m..][..k - m]) == Splice(c, off, s[..k])
  {
    assert s[..k][..m] == s[..m] && s[..k][m..] == s[m..][..k - m];
    SpliceTwice(c, off, s[..k], m);
  }

  lemma SpliceNothing(c: seq<int>, off: int)
    requires 0 <= off <= |c|
    ensures Splice(c, off, []) == c
  {
  }

  // ---- Writing one block's worth

  function Poke(fs: Fs, a: int, o: int, s: seq<int>): Fs
    requires 0 <= a < |fs.data| && |fs.data[a]| == BSIZE && 0 <= o && o + |s| <= BSIZE
  {
    fs.(data := fs.data[a := fs.data[a][..o] + s + fs.data[a][o + |s|..]])
  }

  /** Writing into a data block moves no block. */
  lemma PokeRef(fs: Fs, i: int, k: int, o: int, s: seq<int>, j: int, l: int)
    requires Owned(fs) && k != NDIRECT && 0 < Ref(fs, i, k) < |fs.data|
    requires |fs.data[Ref(fs, i, k)]| == BSIZE && 0 <= o && o + |s| <= BSIZE
    ensures Ref(Poke(fs, Ref(fs, i, k), o, s), j, l) == Ref(fs, j, l)
  {
    assert InjAt(fs, i, k, j, NDIRECT);
    hide Word;
  }

  lemma PokeKeeps(fs: Fs, i: int, k: int, o: int, s: seq<int>)
    requires Owned(fs) && k != NDIRECT && 0 < Ref(fs, i, k) < |fs.data| && Bytes(s)
    requires |fs.data[Ref(fs, i, k)]| == BSIZE && 0 <= o && o + |s| <= BSIZE
    ensures Owned(Poke(fs, Ref(fs, i, k), o, s))
  {
    var a := Ref(fs, i, k);
    var fs' := Poke(fs, a, o, s);
    forall b ensures BlockAt(fs', b) { assert BlockAt(fs, b); }
    forall j ensures InodeAt(fs', j) { assert InodeAt(fs, j); }
    hide Used, Ref, IsBlock;
    forall b ensures MetaAt(fs', b) { assert MetaAt(fs, b); }
    forall j, l ensures RefAt(fs', j, l) { assert RefAt(fs, j, l); PokeRef(fs, i, k, o, s, j, l); }
    forall j, l, m, n ensures InjAt(fs', j, l, m, n) {
      assert InjAt(fs, j, l, m, n);
      PokeRef(fs, i, k, o, s, j, l);
      PokeRef(fs, i, k, o, s, m, n);
    }
  }

  lemma PokeByte(fs: Fs, i: int, off: int, s: seq<int>, j: int, x: int)
    requires Owned(fs) && 0 <= off && off % BSIZE + |s| <= BSIZE && 0 <= x
    requires var a := Ref(fs, i, DataSlot(off / BSIZE)); 0 < a < |fs.data| && |fs.data[a]| == BSIZE
    ensures Byte(Poke(fs, Ref(fs, i, DataSlot(off / BSIZE)), off % BSIZE, s), j, x)
            == if j == i && off <= x < off + |s| then s[x - off] else Byte(fs, j, x)
  {
    var k := DataSlot(off / BSIZE);
    var l := DataSlot(x / BSIZE);
    PokeRef(fs, i, k, off % BSIZE, s, j, l);
    assert InjAt(fs, i, k, j, l);
    SameBlockBytes(off, x, |s|);
    hide Ref;
  }

  lemma SameBlockBytes(off: int, x: int, n: int)
    requires 0 <= off && 0 <= x && 0 <= n && off % BSIZE + n <= BSIZE
    ensures off <= x < off + n ==> x / BSIZE == off / BSIZE
    ensures x / BSIZE == off / BSIZE ==> x % BSIZE - off % BSIZE == x - off
    ensures DataSlot(x / BSIZE) == DataSlot(off / BSIZE) ==> x / BSIZE == off / BSIZE
  {
  }

  // ---- The loop of writei

  datatype Written = Written(fs: Fs) | Full(fs: Fs)

  lemma BmapShape(fs: Fs, i: int, bn: int)
    requires Sized(fs) && HasInode(fs, i) && 0 <= bn < MAXFILE
    ensures Sized(Bmap(fs, i, bn).fs) && HasInode(Bmap(fs, i, bn).fs, i)
  {
    DemandShape(fs, i, if bn < NDIRECT then bn else NDIRECT);
    if bn >= NDIRECT && Demand(fs, i, NDIRECT).Mapped? {
      DemandShape(Demand(fs, i, NDIRECT).fs, i, DataSlot(bn));
    }
  }

  function Chunk(off: int, n: int): int
  {
    Min(n, BSIZE - off % BSIZE)
  }

  lemma ChunkFits(off: int, n: int)
    requires 0 < n
    ensures 0 < Chunk(off, n) <= n && off % BSIZE + Chunk(off, n) <= BSIZE
  {
  }

  /** One turn: map the block at off and write what fits into it. */
  function WriteChunk(fs: Fs, i: int, src: seq<int>, off: int): Written
    requires Sized(fs) && HasInode(fs, i) && 0 <= off && off + |src| <= MAXBYTES && src != []
  {
    var m := Bmap(fs, i, off / BSIZE);
    if m.Mapped? && 0 <= m.addr < |m.fs.data| && |m.fs.data[m.addr]| == BSIZE
    then Written(Poke(m.fs, m.addr, off % BSIZE, src[..Chunk(off, |src|)]))
    else Full(m.fs)
  }

  lemma WriteChunkShape(fs: Fs, i: int, src: seq<int>, off: int)
    requires Sized(fs) && HasInode(fs, i) && 0 <= off && off + |src| <= MAXBYTES && src != []
    ensures Sized(WriteChunk(fs, i, src, off).fs) && HasInode(WriteChunk(fs, i, src, off).fs, i)
  {
    BmapShape(fs, i, off / BSIZE);
  }

  function WriteLoop(fs: Fs, i: int, src: seq<int>, off: int): Written
    requires Sized(fs) && HasInode(fs, i) && 0 <= off && off + |src| <= MAXBYTES
    decreases |src|
  {
    if src == [] then Written(fs)
    else
      var w := WriteChunk(fs, i, src, off);
      WriteChunkShape(fs, i, src, off);
      var c := Chunk(off, |src|);
      if w.Full? then w else WriteLoop(w.fs, i, src[c..], off + c)
  }

  lemma WriteLoopUnfolds(fs: Fs, i: int, src: seq<int>, off: int)
    requires Sized(fs) && HasInode(fs, i) && 0 <= off && off + |src| <= MAXBYTES
    ensures src == [] ==> WriteLoop(fs, i, src, off) == Written(fs)
    ensures src != [] ==>
      var w := WriteChunk(fs, i, src, off); var c := Chunk(off, |src|);
      && Sized(w.fs) && HasInode(w.fs, i) && 0 < c <= |src| && off % BSIZE + c <= BSIZE
      && |w.fs.dinodes| == |fs.dinodes| && |w.fs.inodes| == |fs.inodes|
      && WriteLoop(fs, i, src, off) == if w.Full? then w else WriteLoop(w.fs, i, src[c..], off + c)
  {
    if src != [] {
      WriteChunkShape(fs, i, src, off);
      ChunkFits(off, |src|);
    }
  }

  /** Inode j, its map and its bytes are the same in fs and fs'. */
  ghost predicate SameInode(fs: Fs, fs': Fs, j: int)
  {
    && |fs'.inodes| == |fs.inodes| && |fs'.dinodes| == |fs.dinodes|
    && (0 <= j < |fs.inodes| ==> fs'.inodes[j] == fs.inodes[j])
    && (0 <= j < |fs.dinodes| ==> fs'.dinodes[j] == fs.dinodes[j])
    && (forall k {:trigger Ref(fs', j, k)} :: Ref(fs', j, k) == Ref(fs, j, k))
    && (forall x {:trigger Byte(fs', j, x)} :: 0 <= x ==> Byte(fs', j, x) == Byte(fs, j, x))
  }

  /** Allocation changes no byte that is there. */
  lemma GrownByte(fs: Fs, fs': Fs, i: int, j: int, x: int)
    requires Owned(fs) && Owned(fs') && Grown(fs, fs', i) && 0 <= x
    requires j != i || Ref(fs, j, DataSlot(x / BSIZE)) != 0
    ensures Byte(fs', j, x) == Byte(fs, j, x)
  {
    var k := DataSlot(x / BSIZE);
    assert KeptAt(fs, fs', i, j, k) && RefAt(fs, j, k);
    hide Ref;
  }

  /** The extent of inode i once bytes up to off + c are there. */
  lemma ChunkExtent(fs: Fs, i: int, off: int, c: int, ext: int)
    requires Owned(fs) && HasInode(fs, i) && Extent(fs, i, ext)
    requires 0 <= off <= ext && 0 < c && off % BSIZE + c <= BSIZE && off + c <= MAXBYTES
    requires Bmap(fs, i, off / BSIZE).Mapped?
    ensures Extent(Bmap(fs, i, off / BSIZE).fs, i, Max(ext, off + c))
    ensures off < ext ==> Bmap(fs, i, off / BSIZE).fs == fs
  {
    hide Ref, Bmap, Owned, Grown, DiskFull, HasInode;
    var bn := off / BSIZE;
    OwnedSized(fs);
    var m := Bmap(fs, i, bn);
    BmapKeeps(fs, i, bn);
    if bn * BSIZE < ext {
      assert ExtentAt(fs, i, ext, bn);
      BmapFinds(fs, i, bn);
    }
    var ext' := Max(ext, off + c);
    forall n ensures ExtentAt(m.fs, i, ext', n) { assert ExtentAt(fs, i, ext, n); }
  }

  lemma OwnedSized(fs: Fs)
    requires Owned(fs)
    ensures Sized(fs)
  {
  }

  lemma ChunkSameInode(fs: Fs, i: int, src: seq<int>, off: int, j: int)
    requires Owned(fs) && HasInode(fs, i) && 0 <= off && off + |src| <= MAXBYTES && src != [] && Bytes(src)
    requires WriteChunk(fs, i, src, off).Written? && j != i
    ensures SameInode(fs, WriteChunk(fs, i, src, off).fs, j)
  {
    var bn := off / BSIZE;
    var m := Bmap(fs, i, bn);
    var s := src[..Chunk(off, |src|)];
    BmapKeeps(fs, i, bn);
    assert KeptAt(fs, m.fs, i, j, 0);
    hide Ref, Bmap, Byte;
    var fs' := WriteChunk(fs, i, src, off).fs;
    forall k ensures Ref(fs', j, k) == Ref(fs, j, k) {
      assert KeptAt(fs, m.fs, i, j, k);
      PokeRef(m.fs, i, DataSlot(bn), off % BSIZE, s, j, k);
    }
    forall x | 0 <= x ensures Byte(fs', j, x) == Byte(fs, j, x) {
      PokeByte(m.fs, i, off, s, j, x);
      GrownByte(fs, m.fs, i, j, x);
    }
  }

  /** What a write to inode i of src at off promises of the state it leaves. */
  ghost predicate Spliced(fs: Fs, fs': Fs, i: int, src: seq<int>, off: int, ext: int)
    requires 0 <= off <= ext
  {
    && Owned(fs') && Extent(fs', i, Max(ext, off + |src|))
    && Content(fs', i, Max(ext, off + |src|)) == Splice(Content(fs, i, ext), off, src)
    && fs'.dinodes == fs.dinodes && |fs'.inodes| == |fs.inodes|
    && (0 <= i < |fs.inodes| ==> fs'.inodes[i] == fs.inodes[i].(addrs := fs'.inodes[i].addrs))
    && (off + |src| <= ext ==> fs'.inodes == fs.inodes)
  }

  /** One turn of the loop splices its bytes in. */
  lemma ChunkKeeps(fs: Fs, i: int, src: seq<int>, off: int, ext: int)
    requires Owned(fs) && HasInode(fs, i) && Extent(fs, i, ext) && Bytes(src)
    requires 0 <= off <= ext && off + |src| <= MAXBYTES && src != []
    ensures var w := WriteChunk(fs, i, src, off);
      && Owned(w.fs)
      && (w.Full? ==> DiskFull(w.fs))
      && (w.Written? ==> Spliced(fs, w.fs, i, src[..Chunk(off, |src|)], off, ext))
  {
    var bn := off / BSIZE;
    var m := Bmap(fs, i, bn);
    var c := Chunk(off, |src|);
    var s := src[..c];
    BmapKeeps(fs, i, bn);
    if m.Mapped? {
      assert RefAt(m.fs, i, DataSlot(bn)) && BlockAt(m.fs, m.addr);
      ChunkExtent(fs, i, off, c, ext);
      PokeKeeps(m.fs, i, DataSlot(bn), off % BSIZE, s);
      ChunkBytes(fs, i, src, off, ext);
      PokeExtent(m.fs, i, DataSlot(bn), off % BSIZE, s, Max(ext, off + c));
    }
  }

  lemma PokeExtent(fs: Fs, i: int, k: int, o: int, s: seq<int>, ext: int)
    requires Owned(fs) && k != NDIRECT && 0 < Ref(fs, i, k) < |fs.data|
    requires |fs.data[Ref(fs, i, k)]| == BSIZE && 0 <= o && o + |s| <= BSIZE && Extent(fs, i, ext)
    ensures Extent(Poke(fs, Ref(fs, i, k), o, s), i, ext)
  {
    var fs' := Poke(fs, Ref(fs, i, k), o, s);
    PokeRef(fs, i, k, o, s, i, NDIRECT);
    forall n ensures ExtentAt(fs', i, ext, n) {
      assert ExtentAt(fs, i, ext, n);
      PokeRef(fs, i, k, o, s, i, DataSlot(n));
    }
  }

  lemma ChunkBytes(fs: Fs, i: int, src: seq<int>, off: int, ext: int)
    requires Owned(fs) && HasInode(fs, i) && Extent(fs, i, ext)
    requires 0 <= off <= ext && off + |src| <= MAXBYTES && src != []
    requires WriteChunk(fs, i, src, off).Written?
    ensures var c := Chunk(off, |src|);
      Content(WriteChunk(fs, i, src, off).fs, i, Max(ext, off + c)) == Splice(Content(fs, i, ext), off, src[..c])
  {
    var bn := off / BSIZE;
    var m := Bmap(fs, i, bn);
    var c := Chunk(off, |src|);
    BmapKeeps(fs, i, bn);
    ChunkFits(off, |src|);
    hide Ref, Bmap, Byte, Chunk;
    var fs' := WriteChunk(fs, i, src, off).fs;
    var before, after := Content(fs, i, ext), Content(fs', i, Max(ext, off + c));
    forall x | 0 <= x < |after| ensures after[x] == if off <= x < off + c then src[x - off] else before[x] {
      PokeByte(m.fs, i, off, src[..c], i, x);
      if x < ext {
        assert ExtentAt(fs, i, ext, x / BSIZE);
        GrownByte(fs, m.fs, i, i, x);
      }
    }
    SpliceIs(before, off, src[..c], after);
  }

  lemma SpliceIs(c: seq<int>, off: int, s: seq<int>, r: seq<int>)
    requires 0 <= off <= |c| && |r| == Max(|c|, off + |s|)
    requires forall x :: 0 <= x < |r| ==> r[x] == if off <= x < off + |s| then s[x - off] else c[x]
    ensures r == Splice(c, off, s)
  {
  }

  lemma SameInodeTwice(fs: Fs, fs1: Fs, fs2: Fs, j: int)
    requires SameInode(fs, fs1, j) && SameInode(fs1, fs2, j)
    ensures SameInode(fs, fs2, j)
  {
    hide Ref, Byte;
    forall k ensures Ref(fs2, j, k) == Ref(fs, j, k) { assert Ref(fs1, j, k) == Ref(fs, j, k); }
    forall x | 0 <= x ensures Byte(fs2, j, x) == Byte(fs, j, x) { assert Byte(fs1, j, x) == Byte(fs, j, x); }
  }

  /** Where the loop of writei stands: src is still to be written, at off. */
  ghost predicate Ready(fs: Fs, i: int, src: seq<int>, off: int, ext: int)
  {
    && Owned(fs) && HasInode(fs, i) && Extent(fs, i, ext) && Bytes(src)
    && 0 <= off <= ext && off + |src| <= MAXBYTES
  }

  /** One turn of the loop. */
  lemma LoopTurn(fs: Fs, i: int, src: seq<int>, off: int, ext: int)
    requires Ready(fs, i, src, off, ext) && src != []
    ensures var w := WriteChunk(fs, i, src, off); var c := Chunk(off, |src|);
      && 0 < c <= |src| && off + c <= MAXBYTES && Sized(w.fs) && HasInode(w.fs, i)
      && WriteLoop(fs, i, src, off) == (if w.Full? then w else WriteLoop(w.fs, i, src[c..], off + c))
      && (w.Full? ==> DiskFull(w.fs))
      && (w.Written? ==> Ready(w.fs, i, src[c..], off + c, Max(ext, off + c)))
      && (w.Written? ==> Spliced(fs, w.fs, i, src[..c], off, ext))
  {
    hide WriteLoop, WriteChunk, Chunk, Owned, Extent, DiskFull, Sized;
    ReadyMeans(fs, i, src, off, ext);
    WriteLoopUnfolds(fs, i, src, off);
    ChunkKeeps(fs, i, src, off, ext);
  }

  lemma SplicedTwice(fs: Fs, fs1: Fs, fs2: Fs, i: int, src: seq<int>, c: int, off: int, ext: int)
    requires 0 <= off <= ext && 0 <= c <= |src|
    requires Spliced(fs, fs1, i, src[..c], off, ext) && Spliced(fs1, fs2, i, src[c..], off + c, Max(ext, off + c))
    ensures Spliced(fs, fs2, i, src, off, ext)
  {
    SpliceTwice(Content(fs, i, ext), off, src, c);
    hide Extent, Owned, Content, Splice;
  }

  lemma LoopOthers(fs: Fs, i: int, src: seq<int>, off: int, ext: int, j: int)
    requires Ready(fs, i, src, off, ext) && j != i
    ensures if src == [] then SameInode(fs, fs, j)
            else WriteChunk(fs, i, src, off).Written? ==> SameInode(fs, WriteChunk(fs, i, src, off).fs, j)
  {
    if src != [] && WriteChunk(fs, i, src, off).Written? {
      ChunkSameInode(fs, i, src, off, j);
    }
  }

  lemma ReadyMeans(fs: Fs, i: int, src: seq<int>, off: int, ext: int)
    requires Ready(fs, i, src, off, ext)
    ensures Sized(fs) && HasInode(fs, i) && 0 <= off <= ext && off + |src| <= MAXBYTES
  {
  }

  lemma WriteNothing(fs: Fs, i: int, src: seq<int>, off: int, ext: int)
    requires Ready(fs, i, src, off, ext)
    ensures src == [] ==> WriteLoop(fs, i, src, off) == Written(fs) && Spliced(fs, fs, i, src, off, ext)
  {
    if src == [] { SpliceNothing(Content(fs, i, ext), off); }
  }

  lemma {:induction false} WriteLoopSplices(fs: Fs, i: int, src: seq<int>, off: int, ext: int)
    requires Ready(fs, i, src, off, ext)
    ensures var w := WriteLoop(fs, i, src, off);
      if w.Full? then DiskFull(w.fs) else Spliced(fs, w.fs, i, src, off, ext)
    decreases |src|
  {
    hide *;
    ReadyMeans(fs, i, src, off, ext);
    if src == [] {
      WriteNothing(fs, i, src, off, ext);
      return;
    }
    LoopTurn(fs, i, src, off, ext);
    var c := Chunk(off, |src|);
    var w := WriteChunk(fs, i, src, off);
    if w.Written? {
      WriteLoopSplices(w.fs, i, src[c..], off + c, Max(ext, off + c));
      var w' := WriteLoop(w.fs, i, src[c..], off + c);
      if w'.Written? { SplicedTwice(fs, w.fs, w'.fs, i, src, c, off, ext); }
    }
  }

  lemma {:induction false} WriteLoopOthers(fs: Fs, i: int, src: seq<int>, off: int, ext: int, j: int)
    requires Ready(fs, i, src, off, ext) && j != i && WriteLoop(fs, i, src, off).Written?
    ensures SameInode(fs, WriteLoop(fs, i, src, off).fs, j)
    decreases |src|
  {
    hide *;
    ReadyMeans(fs, i, src, off, ext);
    LoopOthers(fs, i, src, off, ext, j);
    if src == [] {
      WriteNothing(fs, i, src, off, ext);
      return;
    }
    LoopTurn(fs, i, src, off, ext);
    var c := Chunk(off, |src|);
    var w := WriteChunk(fs, i, src, off);
    WriteLoopOthers(w.fs, i, src[c..], off + c, Max(ext, off + c), j);
    SameInodeTwice(fs, w.fs, WriteLoop(w.fs, i, src[c..], off + c).fs, j);
  }

  // ---- writei

  datatype WriteResult = Rejected | Wrote(fs: Fs) | NoSpace(fs: Fs)

  /** iupdate, after setting the size. */
  function Resize(fs: Fs, i: int, size: int): Fs
    requires HasInode(fs, i) && |fs.dinodes| == |fs.inodes|
  {
    var ip := fs.inodes[i].(size := size);
    fs.(inodes := fs.inodes[i := ip], dinodes := fs.dinodes[i := ip])
  }

  predicate Accepts(size: int, off: int, n: int)
  {
    off <= size && (off + n) % TWO32 >= off && (off + n) % TWO32 <= MAXBYTES
  }

  lemma AcceptsExactly(size: int, off: int, n: int)
    requires 0 <= off < TWO32 && 0 <= n < TWO32 && 0 <= size <= MAXBYTES
    ensures Accepts(size, off, n) <==> off <= size && off + n <= MAXBYTES
  {
  }

  lemma NoWrap(size: int, off: int, n: int)
    requires 0 <= off < TWO32 && 0 <= n < TWO32 && Accepts(size, off, n)
    ensures off + n <= MAXBYTES
  {
  }

  function Writei(fs: Fs, i: int, src: seq<int>, off: int): WriteResult
    requires Sized(fs) && HasInode(fs, i) && |fs.dinodes| == |fs.inodes|
    requires 0 <= off < TWO32 && |src| < TWO32
  {
    if !Accepts(fs.inodes[i].size, off, |src|) then Rejected
    else
      NoWrap(fs.inodes[i].size, off, |src|);
      var w := WriteLoop(fs, i, src, off);
      if w.Full? then NoSpace(w.fs)
      else if src != [] && off + |src| > fs.inodes[i].size && HasInode(w.fs, i) && |w.fs.dinodes| == |w.fs.inodes|
      then Wrote(Resize(w.fs, i, off + |src|))
      else Wrote(w.fs)
  }

  /** Map and bytes do not depend on the size field. */
  lemma ResizeSame(fs: Fs, i: int, size: int)
    requires HasInode(fs, i) && |fs.dinodes| == |fs.inodes|
    ensures var fs' := Resize(fs, i, size);
      && (forall j, k :: Ref(fs', j, k) == Ref(fs, j, k))
      && (forall j, x :: Byte(fs', j, x) == Byte(fs, j, x))
  {
  }

  lemma ResizeKeeps(fs: Fs, i: int, size: int, ext: int)
    requires Owned(fs) && HasInode(fs, i) && Extent(fs, i, ext)
    ensures Owned(Resize(fs, i, size)) && Extent(Resize(fs, i, size), i, ext)
    ensures Content(Resize(fs, i, size), i, ext) == Content(fs, i, ext)
    ensures forall j :: j != i ==> SameInode(fs, Resize(fs, i, size), j)
  {
    var fs' := Resize(fs, i, size);
    ResizeSame(fs, i, size);
    hide Ref, Byte, Used;
    forall b ensures BlockAt(fs', b) { assert BlockAt(fs, b); }
    forall j ensures InodeAt(fs', j) { assert InodeAt(fs, j); }
    forall b ensures MetaAt(fs', b) { assert MetaAt(fs, b); }
    forall j, k ensures RefAt(fs', j, k) { assert RefAt(fs, j, k); }
    forall j, k, m, n ensures InjAt(fs', j, k, m, n) { assert InjAt(fs, j, k, m, n); }
    forall n ensures ExtentAt(fs', i, ext, n) { assert ExtentAt(fs, i, ext, n); }
  }

  lemma SameInodeOk(fs: Fs, fs': Fs, j: int)
    requires SameInode(fs, fs', j) && InodeOk(fs, j)
    ensures InodeOk(fs', j)
  {
    hide Ref, Byte;
    if 0 <= j < |fs.inodes| == |fs.dinodes| {
      var ext := fs.inodes[j].size;
      forall n ensures ExtentAt(fs', j, ext, n) { assert ExtentAt(fs, j, ext, n); }
    }
  }

  /** writei: rejected exactly when it would leave a gap or pass the largest file; otherwise the file
      becomes the old one with src spliced in at off, nothing else changes (the inode keeps its type and
      link count), and the inode on disk is the inode in memory.  It fails to finish only on a full disk. */
  lemma WriteiSplices(fs: Fs, i: int, src: seq<int>, off: int)
    requires Inv(fs) && HasInode(fs, i) && Bytes(src) && 0 <= off < TWO32 && |src| < TWO32
    ensures var w := Writei(fs, i, src, off);
      && (w.Rejected? <==> !(off <= |File(fs, i)| && off + |src| <= MAXBYTES))
      && (w.NoSpace? ==> DiskFull(w.fs))
      && (w.Wrote? ==>
            && Inv(w.fs) && HasInode(w.fs, i) && off <= |File(fs, i)|
            && File(w.fs, i) == Splice(File(fs, i), off, src) && SameLinks(fs, w.fs, i)
            && forall j :: j != i ==> SameInode(fs, w.fs, j))
  {
    assert InodeOk(fs, i);
    var ext := fs.inodes[i].size;
    AcceptsExactly(ext, off, |src|);
    if Accepts(ext, off, |src|) {
      WriteLoopSplices(fs, i, src, off, ext);
      var w := WriteLoop(fs, i, src, off);
      if w.Written? {
        forall j | j != i ensures SameInode(fs, w.fs, j) { WriteLoopOthers(fs, i, src, off, ext, j); }
        hide WriteLoop, SameInode;
        WrittenEnds(fs, w.fs, i, src, off);
      }
    }
  }

  lemma WrittenEnds(fs: Fs, fs1: Fs, i: int, src: seq<int>, off: int)
    requires Inv(fs) && HasInode(fs, i) && 0 <= off <= fs.inodes[i].size && off + |src| <= MAXBYTES
    requires Spliced(fs, fs1, i, src, off, fs.inodes[i].size)
    requires forall j :: j != i ==> SameInode(fs, fs1, j)
    ensures HasInode(fs1, i) && |fs1.dinodes| == |fs1.inodes|
    ensures var fs' := if src != [] && off + |src| > fs.inodes[i].size then Resize(fs1, i, off + |src|) else fs1;
      && Inv(fs') && HasInode(fs', i)
      && File(fs', i) == Splice(File(fs, i), off, src) && SameLinks(fs, fs', i)
      && forall j :: j != i ==> SameInode(fs, fs', j)
  {
    assert InodeOk(fs, i) && InodeAt(fs1, i);
    hide Ref, Byte;
    var ext := Max(fs.inodes[i].size, off + |src|);
    var fs' := if src != [] && off + |src| > fs.inodes[i].size then Resize(fs1, i, off + |src|) else fs1;
    ResizeKeeps(fs1, i, off + |src|, ext);
    assert InodeOk(fs', i);
    forall j | j != i ensures SameInode(fs, fs', j) {
      if fs' != fs1 { SameInodeTwice(fs, fs1, fs', j); }
    }
    forall j ensures InodeOk(fs', j) {
      assert InodeOk(fs, j);
      if j != i { SameInodeOk(fs, fs', j); }
    }
  }

  /** No call to bmap from readi allocates. */
  lemma ReadAllocatesNothing(fs: Fs, i: int, off: int)
    requires Inv(fs) && HasInode(fs, i) && 0 <= off < fs.inodes[i].size
    ensures off / BSIZE < MAXFILE
    ensures var m := Bmap(fs, i, off / BSIZE);
      m.Mapped? && m.fs == fs && 0 < m.addr < |fs.data| && IsBlock(fs.data[m.addr]) &&
      forall x :: 0 <= x && x / BSIZE == off / BSIZE ==> Byte(fs, i, x) == fs.data[m.addr][x % BSIZE]
  {
    assert InodeOk(fs, i);
    var bn := off / BSIZE;
    assert ExtentAt(fs, i, fs.inodes[i].size, bn);
    BmapFinds(fs, i, bn);
    assert RefAt(fs, i, DataSlot(bn)) && BlockAt(fs, Ref(fs, i, DataSlot(bn)));
  }

  /** Where byte x of a file is on the disk: 512 to a block, twelve blocks that the inode names, and then those whose
      numbers are the little-endian words of the block it names last. */
  lemma FileLayout(fs: Fs, i: int, x: nat)
    requires Inv(fs) && HasInode(fs, i) && x < |File(fs, i)|
    ensures var a := fs.inodes[i].addrs; var n := x / 512;
      && |a| == 13 && n < 12 + 128
      && (n < 12 ==> 0 < a[n] < |fs.data| && |fs.data[a[n]]| == 512 && File(fs, i)[x] == fs.data[a[n]][x % 512])
      && (n >= 12 ==>
            && 0 < a[12] < |fs.data| && |fs.data[a[12]]| == 512
            && var e, p := 4 * (n - 12), fs.data[a[12]];
               var b := p[e] + 0x100 * p[e + 1] + 0x1_0000 * p[e + 2] + 0x100_0000 * p[e + 3];
               0 < b < |fs.data| && |fs.data[b]| == 512 && File(fs, i)[x] == fs.data[b][x % 512])
  {
    assert InodeOk(fs, i);
    var n := x / BSIZE;
    assert ExtentAt(fs, i, fs.inodes[i].size, n);
    assert RefAt(fs, i, DataSlot(n)) && RefAt(fs, i, NDIRECT);
    assert BlockAt(fs, Ref(fs, i, DataSlot(n))) && BlockAt(fs, Ref(fs, i, NDIRECT));
  }

  // ---- itrunc

  /** itrunc empties its file, on disk too, and leaves its type and link count and every other file as they were. */
  lemma TruncEmpties(fs: Fs, i: int)
    requires Inv(fs) && HasInode(fs, i)
    ensures Inv(Trunc(fs, i)) && HasInode(Trunc(fs, i), i) && File(Trunc(fs, i), i) == []
    ensures SameLinks(fs, Trunc(fs, i), i)
    ensures forall j :: j != i ==> SameInode(fs, Trunc(fs, i), j)
  {
    var fs' := Trunc(fs, i);
    TruncKeeps(fs, i);
    forall j, k ensures Ref(fs', j, k) == if j == i then 0 else Ref(fs, j, k) { TruncRef(fs, i, j, k); }
    forall j, x | j != i ensures Byte(fs', j, x) == Byte(fs, j, x) { TruncRef(fs, i, j, DataSlot(x / BSIZE)); }
    hide Ref, Byte;
    forall n ensures ExtentAt(fs', i, 0, n) { }
    forall j ensures InodeOk(fs', j) {
      assert InodeOk(fs, j);
      if j != i { SameInodeOk(fs, fs', j); }
    }
  }

  /** itrunc, type 0 and iupdate. */
  function FreeInode(fs: Fs, i: int): Fs
    requires HasInode(fs, i) && |fs.dinodes| == |fs.inodes|
  {
    var t := Trunc(fs, i);
    var x := t.inodes[i].(kind := 0);
    t.(inodes := t.inodes[i := x], dinodes := t.dinodes[i := x])
  }

  /** The inode is free, its blocks are too, and every other file is as it was. */
  lemma FreeInodeFrees(fs: Fs, i: int)
    requires Inv(fs) && HasInode(fs, i)
    ensures |fs.dinodes| == |fs.inodes|
    ensures var fs' := FreeInode(fs, i);
      && Inv(fs') && HasInode(fs', i) && File(fs', i) == []
      && fs'.inodes[i].kind == 0 && fs'.inodes[i].nlink == fs.inodes[i].nlink
      && (forall j :: j != i ==> SameInode(fs, fs', j))
      && forall c :: Used(fs'.bits, c) <==> Used(fs.bits, c) && !(exists k :: Ref(fs, i, k) == c && c != 0)
  {
    assert InodeOk(fs, i);
    TruncEmpties(fs, i);
    var t, fs' := Trunc(fs, i), FreeInode(fs, i);
    forall c ensures Used(fs'.bits, c) <==> Used(fs.bits, c) && !(exists k :: Ref(fs, i, k) == c && c != 0) {
      TruncFrees(fs, i, c);
    }
    hide Trunc, Used, Bitmap.Within;
    KindChanges(t, i, 0);
    forall j | j != i ensures SameInode(fs, fs', j) { SameInodeTwice(fs, t, fs', j); }
  }

  /** Map, bytes and bitmap do not depend on the type field. */
  lemma KindChanges(fs: Fs, i: int, kind: int)
    requires Inv(fs) && HasInode(fs, i) && |fs.dinodes| == |fs.inodes|
    ensures var x := fs.inodes[i].(kind := kind); var fs' := fs.(inodes := fs.inodes[i := x], dinodes := fs.dinodes[i := x]);
      Inv(fs') && HasInode(fs', i) && File(fs', i) == File(fs, i) && forall j :: j != i ==> SameInode(fs, fs', j)
  {
    var x := fs.inodes[i].(kind := kind);
    var fs' := fs.(inodes := fs.inodes[i := x], dinodes := fs.dinodes[i := x]);
    assert forall j, k :: Ref(fs', j, k) == Ref(fs, j, k);
    hide Ref;
    assert forall j, y :: Byte(fs', j, y) == Byte(fs, j, y);
    forall b ensures BlockAt(fs', b) && MetaAt(fs', b) { assert BlockAt(fs, b) && MetaAt(fs, b); }
    forall j ensures InodeAt(fs', j) { assert InodeAt(fs, j); }
    forall j, k ensures RefAt(fs', j, k) { assert RefAt(fs, j, k); }
    forall j, k, l, m ensures InjAt(fs', j, k, l, m) { assert InjAt(fs, j, k, l, m); }
    hide Byte;
    forall j ensures InodeOk(fs', j) {
      assert InodeOk(fs, j);
      if 0 <= j < |fs.inodes| {
        forall n ensures ExtentAt(fs', j, fs.inodes[j].size, n) { assert ExtentAt(fs, j, fs.inodes[j].size, n); }
      }
    }
  }

  // ---- filewrite

  // (LOGSIZE - 1 - 1 - 2) / 2 blocks, with LOGSIZE 30
  const MAXCHUNK := 13 * BSIZE

  datatype FileResult = FileDone(fs: Fs, off: int, ok: bool) | FileNoSpace(fs: Fs)

  lemma WriteiShape(fs: Fs, i: int, src: seq<int>, off: int)
    requires Sized(fs) && HasInode(fs, i) && |fs.dinodes| == |fs.inodes|
    requires 0 <= off < TWO32 && |src| < TWO32 && Writei(fs, i, src, off).Wrote?
    ensures var fs' := Writei(fs, i, src, off).fs;
      Sized(fs') && HasInode(fs', i) && |fs'.dinodes| == |fs'.inodes| && off + |src| <= MAXBYTES
  {
    NoWrap(fs.inodes[i].size, off, |src|);
    WriteLoopShape(fs, i, src, off);
  }

  lemma {:induction false} WriteLoopShape(fs: Fs, i: int, src: seq<int>, off: int)
    requires Sized(fs) && HasInode(fs, i) && |fs.dinodes| == |fs.inodes| && 0 <= off && off + |src| <= MAXBYTES
    ensures var fs' := WriteLoop(fs, i, src, off).fs; Sized(fs') && HasInode(fs', i) && |fs'.dinodes| == |fs'.inodes|
    decreases |src|
  {
    hide *;
    WriteLoopUnfolds(fs, i, src, off);
    if src != [] {
      var w := WriteChunk(fs, i, src, off);
      if w.Written? { WriteLoopShape(w.fs, i, src[Chunk(off, |src|)..], off + Chunk(off, |src|)); }
    }
  }

  /** filewrite's loop, one writei for each piece of at most MAXCHUNK bytes. */
  function FileWrite(fs: Fs, i: int, src: seq<int>, off: int): FileResult
    requires Sized(fs) && HasInode(fs, i) && |fs.dinodes| == |fs.inodes| && 0 <= off < TWO32
    decreases |src|
  {
    if src == [] then FileDone(fs, off, true)
    else
      var n1 := Min(|src|, MAXCHUNK);
      var w := Writei(fs, i, src[..n1], off);
      if w.Rejected? then FileDone(fs, off, false)
      else if w.NoSpace? then FileNoSpace(w.fs)
      else
        WriteiShape(fs, i, src[..n1], off);
        FileWrite(w.fs, i, src[n1..], off + n1)
  }

  function WholeChunks(n: int): (r: int)
    requires 0 <= n
    ensures 0 <= r <= n
  {
    if n < MAXCHUNK then 0 else MAXCHUNK + WholeChunks(n - MAXCHUNK)
  }

  /** How many bytes filewrite gets into the file. */
  function FileTakes(size: int, off: int, n: nat): (k: nat)
    requires 0 <= off
    ensures k <= n
  {
    if off > size then 0 else if off + n <= MAXBYTES then n
    else if off > MAXBYTES then 0 else Min(n, WholeChunks(MAXBYTES - off))
  }

  lemma TakesStep(size: int, off: int, n: nat)
    requires 0 <= off && 0 <= size <= MAXBYTES && 0 < n
    ensures var n1 := Min(n, MAXCHUNK);
      if off <= size && off + n1 <= MAXBYTES
      then FileTakes(size, off, n) == n1 + FileTakes(Max(size, off + n1), off + n1, n - n1)
      else FileTakes(size, off, n) == 0
  {
  }

  lemma FileWriteUnfolds(fs: Fs, i: int, src: seq<int>, off: int)
    requires Sized(fs) && HasInode(fs, i) && |fs.dinodes| == |fs.inodes| && 0 <= off < TWO32 && src != []
    ensures var n1 := Min(|src|, MAXCHUNK); var w := Writei(fs, i, src[..n1], off);
      && (w.Wrote? ==> Sized(w.fs) && HasInode(w.fs, i) && |w.fs.dinodes| == |w.fs.inodes| && off + n1 <= MAXBYTES)
      && FileWrite(fs, i, src, off) ==
         if w.Rejected? then FileDone(fs, off, false)
         else if w.NoSpace? then FileNoSpace(w.fs)
         else FileWrite(w.fs, i, src[n1..], off + n1)
  {
    var n1 := Min(|src|, MAXCHUNK);
    if Writei(fs, i, src[..n1], off).Wrote? { WriteiShape(fs, i, src[..n1], off); }
    hide Writei, Sized, HasInode;
  }

  /** The outcome of filewrite. */
  ghost predicate FileSpliced(fs: Fs, r: FileResult, i: int, src: seq<int>, off: int)
    requires HasInode(fs, i) && 0 <= off
  {
    var k := FileTakes(|File(fs, i)|, off, |src|);
    if r.FileNoSpace? then DiskFull(r.fs)
    else
      && Inv(r.fs) && HasInode(r.fs, i) && SameLinks(fs, r.fs, i)
      && (r.ok <==> k == |src|) && r.off == off + k
      && (if off <= |File(fs, i)| then File(r.fs, i) == Splice(File(fs, i), off, src[..k]) else r.fs == fs)
      && forall j :: j != i ==> SameInode(fs, r.fs, j)
  }

  lemma FileSplicedTwice(fs: Fs, fs1: Fs, r: FileResult, i: int, src: seq<int>, off: int, n1: int)
    requires HasInode(fs, i) && HasInode(fs1, i) && 0 <= off <= |File(fs, i)| && |File(fs, i)| <= MAXBYTES
    requires 0 < |src| && n1 == Min(|src|, MAXCHUNK) && off + n1 <= MAXBYTES
    requires File(fs1, i) == Splice(File(fs, i), off, src[..n1]) && SameLinks(fs, fs1, i)
    requires forall j :: j != i ==> SameInode(fs, fs1, j)
    requires FileSpliced(fs1, r, i, src[n1..], off + n1)
    ensures FileSpliced(fs, r, i, src, off)
  {
    hide File, Splice, FileTakes, Inv, SameInode, DiskFull, HasInode;
    TakesStep(|File(fs, i)|, off, |src|);
    var k := FileTakes(|File(fs, i)|, off, |src|);
    SpliceParts(File(fs, i), off, src, n1, k);
    if r.FileDone? {
      forall j | j != i ensures SameInode(fs, r.fs, j) { SameInodeTwice(fs, fs1, r.fs, j); }
    }
  }

  lemma FileRejected(fs: Fs, i: int, src: seq<int>, off: int)
    requires Inv(fs) && HasInode(fs, i) && 0 <= off
    requires src != [] ==> !(off <= |File(fs, i)| && off + Min(|src|, MAXCHUNK) <= MAXBYTES)
    ensures FileSpliced(fs, FileDone(fs, off, src == []), i, src, off)
  {
    assert InodeOk(fs, i);
    if off <= |File(fs, i)| { SpliceNothing(File(fs, i), off); }
    if src != [] { TakesStep(|File(fs, i)|, off, |src|); }
    hide Inv, InodeOk;
  }

  /** One piece of filewrite: it ends there, or goes on from a file with the piece spliced in. */
  lemma FilePiece(fs: Fs, i: int, src: seq<int>, off: int)
    requires Inv(fs) && HasInode(fs, i) && Bytes(src) && 0 <= off < TWO32 && src != []
    ensures Sized(fs) && |fs.dinodes| == |fs.inodes| && |File(fs, i)| <= MAXBYTES
    ensures var n1 := Min(|src|, MAXCHUNK); var w := Writei(fs, i, src[..n1], off);
      if w.Wrote? then
        && Inv(w.fs) && HasInode(w.fs, i) && off <= |File(fs, i)| && off + n1 <= MAXBYTES
        && Sized(w.fs) && |w.fs.dinodes| == |w.fs.inodes|
        && FileWrite(fs, i, src, off) == FileWrite(w.fs, i, src[n1..], off + n1)
        && File(w.fs, i) == Splice(File(fs, i), off, src[..n1]) && SameLinks(fs, w.fs, i)
        && forall j :: j != i ==> SameInode(fs, w.fs, j)
      else FileSpliced(fs, FileWrite(fs, i, src, off), i, src, off)
  {
    assert InodeOk(fs, i);
    var n1 := Min(|src|, MAXCHUNK);
    var w := Writei(fs, i, src[..n1], off);
    WriteiSplices(fs, i, src[..n1], off);
    FileWriteUnfolds(fs, i, src, off);
    hide FileWrite, Writei, Splice, SameInode, Inv, File, DiskFull, Extent, Owned;
    if w.Rejected? { FileRejected(fs, i, src, off); }
  }

  lemma FileNothing(fs: Fs, i: int, src: seq<int>, off: int)
    requires Inv(fs) && HasInode(fs, i) && 0 <= off < TWO32 && src == []
    ensures Sized(fs) && |fs.dinodes| == |fs.inodes|
    ensures FileSpliced(fs, FileWrite(fs, i, src, off), i, src, off)
  {
    FileRejected(fs, i, src, off);
    hide FileSpliced;
  }

  /** filewrite is one big splice.  It returns n exactly when the whole of src fits; if not, the whole
      pieces that fit are still written. */
  lemma {:induction false} FileWriteSplices(fs: Fs, i: int, src: seq<int>, off: int)
    requires Inv(fs) && HasInode(fs, i) && Bytes(src) && 0 <= off < TWO32
    ensures Sized(fs) && |fs.dinodes| == |fs.inodes|
    ensures FileSpliced(fs, FileWrite(fs, i, src, off), i, src, off)
    decreases |src|
  {
    hide FileSpliced, FileWrite, Writei, Splice, SameInode, Inv, File, HasInode, Sized, FileTakes;
    if src == [] {
      FileNothing(fs, i, src, off);
      return;
    }
    FilePiece(fs, i, src, off);
    var n1 := Min(|src|, MAXCHUNK);
    var w := Writei(fs, i, src[..n1], off);
    if w.Wrote? {
      FileWriteSplices(w.fs, i, src[n1..], off + n1);
      FileSplicedTwice(fs, w.fs, FileWrite(w.fs, i, src[n1..], off + n1), i, src, off, n1);
    }
  }
}
