/** Directories (fs.c's dirlookup and namecmp): entries of 16 bytes in a file, an inode number and a name. */
module Directory {
  import opened Paths
  import opened InodeMap
  import opened InodeBytes
  import FileSystem

  const DIRENT := 16
  const T_DIR := 1

  // ---- Names

  function CharAt(name: string, k: int): int
  {
    if 0 <= k < |name| then name[k] as int else 0
  }

  /** namecmp from character k on: whether it returns 0. */
  predicate SameFrom(name: string, b: seq<int>, k: int)
    requires |b| == DIRSIZ && 0 <= k <= DIRSIZ
    decreases DIRSIZ - k
  {
    if k == DIRSIZ then true
    else if CharAt(name, k) == 0 || CharAt(name, k) != b[k] then CharAt(name, k) == b[k]
    else SameFrom(name, b, k + 1)
  }

  /** The name in an entry: up to a zero byte or to the end. */
  function NameIn(b: seq<int>, k: int): string
    requires Bytes(b) && 0 <= k <= |b|
    decreases |b| - k
  {
    if k == |b| || b[k] == 0 then [] else [b[k] as char] + NameIn(b, k + 1)
  }

  /** A C string that fits in an entry. */
  predicate IsName(name: string)
  {
    |name| <= DIRSIZ && forall x :: 0 <= x < |name| ==> name[x] != '\0'
  }

  lemma {:induction false} SameIsEqual(name: string, b: seq<int>, k: int)
    requires |b| == DIRSIZ && Bytes(b) && IsName(name) && 0 <= k <= |name|
    ensures SameFrom(name, b, k) <==> name[k..] == NameIn(b, k)
    decreases DIRSIZ - k
  {
    if k < |name| {
      assert name[k..] == [name[k]] + name[k + 1..];
      if name[k] as int == b[k] {
        SameIsEqual(name, b, k + 1);
      }
    }
  }

  // ---- Entries

  function InumOf(e: seq<int>): int
    requires |e| == DIRENT
  {
    e[0] + 256 * e[1]
  }

  /** An entry in use under the name. */
  predicate Matches(e: seq<int>, name: string)
    requires |e| == DIRENT
  {
    InumOf(e) != 0 && SameFrom(name, e[2..], 0)
  }

  /** Torn stands for the panic on an entry cut short by the end of the file. */
  datatype Found = Torn | Absent | Present(inum: int, off: int)

  function EntryAt(file: seq<int>, k: int): (e: seq<int>)
    requires 0 <= k && (k + 1) * DIRENT <= |file|
    ensures |e| == DIRENT
  {
    file[k * DIRENT..k * DIRENT + DIRENT]
  }

  /** dirlookup from the k-th entry on. */
  function LookFrom(file: seq<int>, name: string, k: nat): Found
    decreases |file| - k * DIRENT
  {
    if k * DIRENT >= |file| then Absent
    else if (k + 1) * DIRENT > |file| then Torn
    else if Matches(EntryAt(file, k), name) then Present(InumOf(EntryAt(file, k)), k * DIRENT)
    else LookFrom(file, name, k + 1)
  }

  /** dirlookup finds the first entry in use that holds the name, and panics exactly if there is none and the
      file ends inside an entry. */
  lemma {:induction false} LookIs(file: seq<int>, name: string, k: nat)
    ensures match LookFrom(file, name, k)
      case Present(inum, off) =>
        exists j :: k <= j && (j + 1) * DIRENT <= |file| && off == j * DIRENT
          && Matches(EntryAt(file, j), name) && inum == InumOf(EntryAt(file, j))
          && forall l :: k <= l < j ==> !Matches(EntryAt(file, l), name)
      case Absent =>
        && (k * DIRENT <= |file| ==> |file| % DIRENT == 0)
        && forall l :: k <= l && (l + 1) * DIRENT <= |file| ==> !Matches(EntryAt(file, l), name)
      case Torn =>
        && |file| % DIRENT != 0
        && forall l :: k <= l && (l + 1) * DIRENT <= |file| ==> !Matches(EntryAt(file, l), name)
    decreases |file| - k * DIRENT
  {
    hide Matches, EntryAt, InumOf;
    if k * DIRENT >= |file| || (k + 1) * DIRENT > |file| { return; }
    if Matches(EntryAt(file, k), name) {
      assert LookFrom(file, name, k) == Present(InumOf(EntryAt(file, k)), k * DIRENT);
    } else {
      LookIs(file, name, k + 1);
    }
  }

  // ---- The loops

  /** strncmp, on a name and an entry's name. */
  method Namecmp(name: string, b: seq<int>) returns (same: bool)
    requires |b| == DIRSIZ
    ensures same <==> SameFrom(name, b, 0)
  {
    var k := 0;
    while k < DIRSIZ && CharAt(name, k) != 0 && CharAt(name, k) == b[k]
      invariant 0 <= k <= DIRSIZ && (SameFrom(name, b, 0) <==> SameFrom(name, b, k))
    {
      k := k + 1;
    }
    return k == DIRSIZ || CharAt(name, k) == b[k];
  }

  method Dirlookup(fs: FileSystem.FileSystem, i: int, name: string) returns (r: Found)
    requires Inv(fs.State()) && HasInode(fs.State(), i)
    modifies fs
    ensures fs.State() == old(fs.State()) && r == LookFrom(File(fs.State(), i), name, 0)
  {
    hide *;
    ghost var st := fs.State();
    ghost var file := File(st, i);
    FileSystem.SizeOf(st, i);
    fs.StateIs();
    InodeInRange(st, i);
    var off, k := 0, 0;
    while off < fs.inodes[i].size
      invariant 0 <= k && off == k * 16 && fs.State() == st && |fs.inodes| == |st.inodes| && fs.inodes[i] == st.inodes[i]
      invariant LookFrom(file, name, 0) == LookFrom(file, name, k)
      decreases |file| - off
    {
      LookTurn(st, i, name, k);
      var read := fs.Readi(i, off, 16);
      fs.StateIs();
      if read.ReadError? || |read.bytes| != 16 {
        return Torn;
      }
      var de := read.bytes;
      var inum := de[0] + 256 * de[1];
      MatchIs(de, name);
      if inum != 0 {
        var same := Namecmp(name, de[2..]);
        if same {
          return Present(inum, off);
        }
      }
      off, k := off + 16, k + 1;
    }
    LookEnds(file, name, k);
    return Absent;
  }

  lemma InodeInRange(fs: Fs, i: int)
    requires HasInode(fs, i)
    ensures 0 <= i < |fs.inodes|
  {
  }

  /** One turn: what readi returns, and what the scan makes of it. */
  lemma LookTurn(fs: Fs, i: int, name: string, k: nat)
    requires Inv(fs) && HasInode(fs, i) && k * 16 < |File(fs, i)|
    ensures var file, off := File(fs, i), k * 16; var part := file[off..Min(off + 16, |file|)];
      && 0 <= off < TWO32 && 16 < TWO32 && !(off > |file| || (off + 16) % TWO32 < off)
      && if |part| != 16 then LookFrom(file, name, k) == Torn
         else
           LookFrom(file, name, k) ==
           if Matches(part, name) then Present(InumOf(part), off) else LookFrom(file, name, k + 1)
  {
    FileSystem.SizeOf(fs, i);
    hide Inv, HasInode, File, Matches, InumOf;
  }

  lemma LookEnds(file: seq<int>, name: string, k: nat)
    requires k * 16 >= |file|
    ensures LookFrom(file, name, k) == Absent
  {
  }

  lemma MatchIs(e: seq<int>, name: string)
    requires |e| == 16
    ensures |e[2..]| == DIRSIZ && InumOf(e) == e[0] + 256 * e[1]
    ensures Matches(e, name) <==> InumOf(e) != 0 && SameFrom(name, e[2..], 0)
  {
  }
}
