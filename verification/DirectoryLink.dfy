/** dirlink (fs.c): a new entry in a directory, and what dirlookup makes of it. */
module DirectoryLink {
  import opened Paths
  import opened InodeMap
  import opened InodeBytes
  import opened Directory
  import FileSystem

  /** A C string. */
  predicate IsCString(name: string)
  {
    forall x :: 0 <= x < |name| ==> 0 < name[x] as int < 256
  }

  /** An entry with its sixteen-bit inode number and the name, cut or filled up with zeros. */
  function DirentOf(inum: nat, name: string): (e: seq<int>)
    ensures |e| == DIRENT
  {
    [inum % 256, inum / 256 % 256] + seq(DIRSIZ, k => CharAt(name, k))
  }

  /** dirlink's scan from the k-th entry on: the first one not in use, or the end. */
  function FreeFrom(file: seq<int>, k: nat): (r: nat)
    ensures k <= r && (k * DIRENT <= |file| ==> r * DIRENT <= |file|)
    ensures (r + 1) * DIRENT <= |file| ==> InumOf(EntryAt(file, r)) == 0
    ensures forall j :: k <= j < r ==> (j + 1) * DIRENT <= |file| && InumOf(EntryAt(file, j)) != 0
    decreases |file| - k * DIRENT
  {
    if (k + 1) * DIRENT > |file| || InumOf(EntryAt(file, k)) == 0 then k else FreeFrom(file, k + 1)
  }

  /** The directory with the entry in place f. */
  function WithEntry(file: seq<int>, f: nat, inum: nat, name: string): seq<int>
    requires f * DIRENT <= |file|
  {
    Splice(file, f * DIRENT, DirentOf(inum, name))
  }

  // ---- What is found afterwards

  lemma DirentInum(inum: nat, name: string)
    ensures InumOf(DirentOf(inum, name)) == inum % 65536
  {
    var a := inum / 256;
    assert inum == 65536 * (a / 256) + (256 * (a % 256) + inum % 256);
    Remainder(a / 256, 256 * (a % 256) + inum % 256);
  }

  lemma Remainder(q: nat, r: nat)
    requires r < 65536
    ensures (65536 * q + r) % 65536 == r
  {
  }

  /** The two names agree in their first DIRSIZ characters. */
  predicate SameName(name: string, other: string)
  {
    Clip(name) == Clip(other)
  }

  lemma {:induction false} NamesCompare(name: string, other: string, b: seq<int>, k: nat)
    requires IsCString(name) && IsCString(other) && k <= DIRSIZ && k <= |name| && k <= |other|
    requires |b| == DIRSIZ && forall x :: 0 <= x < DIRSIZ ==> b[x] == CharAt(other, x)
    ensures SameFrom(name, b, k) <==> Clip(name)[k..] == Clip(other)[k..]
    decreases DIRSIZ - k
  {
    var n, o := Clip(name), Clip(other);
    if k < |n| && k < |o| {
      assert n[k..] == [n[k]] + n[k + 1..] && o[k..] == [o[k]] + o[k + 1..];
      if name[k] == other[k] { NamesCompare(name, other, b, k + 1); }
    }
  }

  lemma DirentMatches(inum: nat, name: string, other: string)
    requires IsCString(name) && IsCString(other)
    ensures Matches(DirentOf(inum, name), other) <==> inum % 65536 != 0 && SameName(other, name)
  {
    DirentInum(inum, name);
    var e := DirentOf(inum, name);
    assert |e[2..]| == DIRSIZ && forall x :: 0 <= x < DIRSIZ ==> e[2..][x] == CharAt(name, x);
    NamesCompare(other, name, e[2..], 0);
    assert Clip(other)[0..] == Clip(other) && Clip(name)[0..] == Clip(name);
  }

  lemma EntryAfter(file: seq<int>, f: nat, e: seq<int>, k: nat)
    requires |file| % DIRENT == 0 && f * DIRENT <= |file| && |e| == DIRENT
    requires (k + 1) * DIRENT <= |Splice(file, f * DIRENT, e)|
    ensures EntryAt(Splice(file, f * DIRENT, e), k) == if k == f then e else file[k * DIRENT..k * DIRENT + DIRENT]
    ensures k != f ==> (k + 1) * DIRENT <= |file|
  {
  }

  /** A place that is free, and an entry that does not match: the search goes as before. */
  lemma {:induction false} LookPast(file: seq<int>, f: nat, e: seq<int>, name: string, k: nat)
    requires |file| % DIRENT == 0 && f * DIRENT <= |file| && |e| == DIRENT && k * DIRENT <= |file|
    requires (f + 1) * DIRENT <= |file| ==> InumOf(EntryAt(file, f)) == 0
    requires !Matches(e, name)
    ensures LookFrom(Splice(file, f * DIRENT, e), name, k) == LookFrom(file, name, k)
    decreases |file| - k * DIRENT
  {
    var file' := Splice(file, f * DIRENT, e);
    if (f + 1) * DIRENT <= |file| { FreeNoMatch(EntryAt(file, f), name); }
    hide Splice, EntryAt, Matches, InumOf;
    if k * DIRENT < |file| {
      EntryAfter(file, f, e, k);
      EntryIs(file, k);
      LookPast(file, f, e, name, k + 1);
    } else if k == f {
      EntryAfter(file, f, e, k);
      LookEnds(file', name, k + 1);
    }
  }

  lemma FreeNoMatch(e: seq<int>, name: string)
    requires |e| == DIRENT && InumOf(e) == 0
    ensures !Matches(e, name)
  {
  }

  lemma EntryIs(file: seq<int>, k: nat)
    requires (k + 1) * DIRENT <= |file|
    ensures EntryAt(file, k) == file[k * DIRENT..k * DIRENT + DIRENT]
  {
  }

  /** No entry before it matches, and the new one does. */
  lemma {:induction false} LookHits(file: seq<int>, f: nat, e: seq<int>, name: string, k: nat)
    requires |file| % DIRENT == 0 && f * DIRENT <= |file| && |e| == DIRENT && k <= f
    requires Matches(e, name) && LookFrom(file, name, k).Absent?
    ensures LookFrom(Splice(file, f * DIRENT, e), name, k) == Present(InumOf(e), f * DIRENT)
    decreases f - k
  {
    var file' := Splice(file, f * DIRENT, e);
    EntryAfter(file, f, e, k);
    hide Splice, EntryAt;
    if k < f {
      EntryIs(file, k);
      LookHits(file, f, e, name, k + 1);
    }
  }

  /** After dirlink of a name that was not there, dirlookup finds the inode under it, and under every other name what
      it found before.  (The inode number has sixteen bits.) */
  lemma LinkThenLook(file: seq<int>, name: string, inum: nat, other: string)
    requires IsCString(name) && IsCString(other) && LookFrom(file, name, 0).Absent?
    ensures var f := FreeFrom(file, 0); var file' := WithEntry(file, f, inum, name);
      LookFrom(file', other, 0) ==
        if inum % 65536 != 0 && SameName(other, name) then Present(inum % 65536, f * DIRENT) else LookFrom(file, other, 0)
  {
    LookIs(file, name, 0);
    var f := FreeFrom(file, 0);
    var e := DirentOf(inum, name);
    DirentMatches(inum, name, other);
    DirentInum(inum, name);
    if Matches(e, other) {
      SameLook(file, name, other, 0);
      LookHits(file, f, e, other, 0);
    } else {
      LookPast(file, f, e, other, 0);
    }
  }

  lemma {:induction false} SameLook(file: seq<int>, name: string, other: string, k: nat)
    requires IsCString(name) && IsCString(other) && SameName(name, other)
    ensures LookFrom(file, other, k) == LookFrom(file, name, k)
    decreases |file| - k * DIRENT
  {
    if (k + 1) * DIRENT <= |file| {
      var e := EntryAt(file, k);
      SameCompare(name, other, e[2..], 0);
      hide EntryAt;
      SameLook(file, name, other, k + 1);
    }
  }

  lemma {:induction false} SameCompare(name: string, other: string, b: seq<int>, k: nat)
    requires IsCString(name) && IsCString(other) && SameName(name, other) && |b| == DIRSIZ && k <= DIRSIZ
    ensures SameFrom(other, b, k) == SameFrom(name, b, k)
    decreases DIRSIZ - k
  {
    if k < DIRSIZ {
      assert CharAt(name, k) == CharAt(Clip(name), k) && CharAt(other, k) == CharAt(Clip(other), k);
      SameCompare(name, other, b, k + 1);
    }
  }

  // ---- The code

  /** The name is there; the panics on a torn directory, on one of the largest size and on a full disk; or the place
      of the new entry. */
  datatype LinkResult = AlreadyThere | TornDir | TooLarge | DiskRanOut | LinkedAt(f: nat)

  ghost predicate LinkDone(st: Fs, st': Fs, i: int, name: string, inum: nat, r: LinkResult)
    requires HasInode(st, i)
  {
    var file := File(st, i);
    match r
    case AlreadyThere => LookFrom(file, name, 0).Present? && st' == st
    case TornDir => LookFrom(file, name, 0).Torn? && st' == st
    case TooLarge =>
      LookFrom(file, name, 0).Absent? && FreeFrom(file, 0) * DIRENT == |file| && |file| + DIRENT > MAXBYTES && st' == st
    case DiskRanOut => LookFrom(file, name, 0).Absent? && DiskFull(st')
    case LinkedAt(f) =>
      && LookFrom(file, name, 0).Absent? && f == FreeFrom(file, 0)
      && Inv(st') && HasInode(st', i) && File(st', i) == WithEntry(file, f, inum, name) && SameLinks(st, st', i)
      && forall j :: j != i ==> SameInode(st, st', j)
  }

  /** Its scan. */
  method FindFree(fs: FileSystem.FileSystem, i: int) returns (f: nat)
    requires Inv(fs.State()) && HasInode(fs.State(), i) && |File(fs.State(), i)| % DIRENT == 0
    modifies fs
    ensures fs.State() == old(fs.State()) && f == FreeFrom(File(fs.State(), i), 0)
  {
    hide *;
    ghost var st := fs.State();
    ghost var file := File(st, i);
    FileSystem.SizeOf(st, i);
    fs.StateIs();
    InodeInRange(st, i);
    f := 0;
    while f * 16 < fs.inodes[i].size
      invariant f * 16 <= |file| && fs.State() == st && |fs.inodes| == |st.inodes| && fs.inodes[i] == st.inodes[i]
      invariant FreeFrom(file, 0) == FreeFrom(file, f)
      decreases |file| - f * 16
    {
      FreeTurn(st, i, f);
      var read := fs.Readi(i, f * 16, 16);
      fs.StateIs();
      var de := read.bytes;
      if de[0] + 256 * de[1] == 0 {
        return;
      }
      f := f + 1;
    }
    FreeEnds(file, f);
  }

  lemma FreeTurn(fs: Fs, i: int, k: nat)
    requires Inv(fs) && HasInode(fs, i) && |File(fs, i)| % DIRENT == 0 && k * 16 < |File(fs, i)|
    ensures var file, off := File(fs, i), k * 16; var part := file[off..Min(off + 16, |file|)];
      && 0 <= off < TWO32 && 16 < TWO32 && !(off > |file| || (off + 16) % TWO32 < off) && |part| == 16
      && (k + 1) * 16 <= |file| && k * DIRENT <= |file| && (k + 1) * DIRENT <= |file|
      && FreeFrom(file, k) == if part[0] + 256 * part[1] == 0 then k else FreeFrom(file, k + 1)
  {
    FileSystem.SizeOf(fs, i);
    hide Inv, HasInode, File;
  }

  lemma FreeEnds(file: seq<int>, k: nat)
    requires k * 16 == |file|
    ensures k * DIRENT <= |file| && FreeFrom(file, k) == k
  {
  }

  /** What dirlink is to do after dirlookup. */
  lemma LinkLooks(st: Fs, i: int, name: string, inum: nat)
    requires Inv(st) && HasInode(st, i)
    ensures var found := LookFrom(File(st, i), name, 0);
      && (found.Present? ==> LinkDone(st, st, i, name, inum, AlreadyThere))
      && (found.Torn? ==> LinkDone(st, st, i, name, inum, TornDir))
      && (found.Absent? ==> |File(st, i)| % DIRENT == 0)
  {
    LookIs(File(st, i), name, 0);
  }

  function Outcome(w: WriteResult, f: nat): LinkResult
  {
    if w.Rejected? then TooLarge else if w.NoSpace? then DiskRanOut else LinkedAt(f)
  }

  /** What its write does. */
  lemma LinkWrites(st: Fs, i: int, name: string, inum: nat, f: nat, de: seq<int>)
    requires Inv(st) && HasInode(st, i) && LookFrom(File(st, i), name, 0).Absent? && f == FreeFrom(File(st, i), 0)
    requires de == DirentOf(inum, name) && Bytes(de)
    ensures Sized(st) && |st.dinodes| == |st.inodes| && 0 <= f * 16 < TWO32 && |de| < TWO32
    ensures var w := Writei(st, i, de, f * 16);
      LinkDone(st, if w.Rejected? then st else w.fs, i, name, inum, Outcome(w, f))
  {
    var file := File(st, i);
    assert InodeOk(st, i);
    FileSystem.SizeOf(st, i);
    LookIs(file, name, 0);
    WriteiSplices(st, i, de, f * 16);
    hide Inv, InodeOk, HasInode, File, LookFrom, Writei, Splice, SameInode, SameLinks, DiskFull, DirentOf, FreeFrom;
    hide Extent, Owned;
  }

  /** dirlink, but for the iget and iput of an inode already there. */
  method Dirlink(fs: FileSystem.FileSystem, i: int, name: string, inum: nat) returns (r: LinkResult)
    requires Inv(fs.State()) && HasInode(fs.State(), i) && IsCString(name)
    modifies fs
    ensures LinkDone(old(fs.State()), fs.State(), i, name, inum, r)
  {
    hide *;
    ghost var st := fs.State();
    LinkLooks(st, i, name, inum);
    var found := Dirlookup(fs, i, name);
    if found.Present? {
      return AlreadyThere;
    }
    if found.Torn? {
      return TornDir;
    }
    var f := FindFree(fs, i);
    var de := [inum % 256, inum / 256 % 256] + seq(14, k => if 0 <= k < |name| then name[k] as int else 0);
    DirentIs(inum, name, de);
    LinkWrites(st, i, name, inum, f, de);
    var w := fs.Writei(i, de, f * 16);
    r := if w.Rejected? then TooLarge else if w.NoSpace? then DiskRanOut else LinkedAt(f);
    OutcomeIs(w, f);
  }

  lemma OutcomeIs(w: WriteResult, f: nat)
    ensures Outcome(w, f) == if w.Rejected? then TooLarge else if w.NoSpace? then DiskRanOut else LinkedAt(f)
  {
  }

  lemma DirentIs(inum: nat, name: string, de: seq<int>)
    requires IsCString(name) && |de| == 16 && de[0] == inum % 256 && de[1] == inum / 256 % 256
    requires forall k :: 2 <= k < 16 ==> de[k] == if k - 2 < |name| then name[k - 2] as int else 0
    ensures de == DirentOf(inum, name) && Bytes(de)
  {
  }
}
