/** References to cached inodes (fs.c's iget, idup, ilock, iput) and the path walk that takes and drops them,
    over the file system of FileSystem.
 */
module InodeCache {
  import opened Paths
  import opened InodeMap
  import opened InodeBytes
  import Directory
  import FileSystem

  const NOENTRY := -1
  const ROOTDEV := 1
  const ROOTINO := 1

  datatype Id = Id(dev: int, inum: int)

  /** `valid` tells that the inode has been read from disk. */
  datatype Entry = Entry(id: Id, ref: int, valid: bool)

  predicate Live(c: seq<Entry>, e: int)
  {
    0 <= e < |c| && c[e].ref > 0
  }

  predicate UniqueAt(c: seq<Entry>, a: int, b: int)
  {
    Live(c, a) && Live(c, b) && c[a].id == c[b].id ==> a == b
  }

  /** At most one entry in use for each inode, and no negative counts. */
  ghost predicate Ok(c: seq<Entry>)
  {
    && (forall e :: 0 <= e < |c| ==> c[e].ref >= 0)
    && forall a, b {:trigger UniqueAt(c, a, b)} :: UniqueAt(c, a, b)
  }

  /** The references to an inode. */
  function Refs(c: seq<Entry>, id: Id): int
  {
    if c == [] then 0 else Refs(c[..|c| - 1], id) + if c[|c| - 1].id == id then c[|c| - 1].ref else 0
  }

  lemma {:induction false} RefsUpdate(c: seq<Entry>, e: int, x: Entry, id: Id)
    requires 0 <= e < |c|
    ensures Refs(c[e := x], id) ==
      Refs(c, id) - (if c[e].id == id then c[e].ref else 0) + (if x.id == id then x.ref else 0)
  {
    var c' := c[e := x];
    var n := |c| - 1;
    if e == n {
      assert c'[..n] == c[..n];
    } else {
      RefsUpdate(c[..n], e, x, id);
      assert c'[..n] == c[..n][e := x];
    }
  }

  // ---- iget

  function FindLive(c: seq<Entry>, id: Id, e: nat): (r: int)
    requires e <= |c|
    ensures r == NOENTRY || (e <= r < |c| && c[r].ref > 0 && c[r].id == id)
    ensures r == NOENTRY ==> forall k :: e <= k < |c| ==> !(c[k].ref > 0 && c[k].id == id)
    decreases |c| - e
  {
    if e == |c| then NOENTRY else if c[e].ref > 0 && c[e].id == id then e else FindLive(c, id, e + 1)
  }

  function FirstEmpty(c: seq<Entry>, n: nat): (r: int)
    requires n <= |c|
    ensures r == NOENTRY || (0 <= r < n && c[r].ref == 0)
    ensures r == NOENTRY ==> forall k :: 0 <= k < n ==> c[k].ref != 0
  {
    if n == 0 then NOENTRY
    else if FirstEmpty(c, n - 1) != NOENTRY then FirstEmpty(c, n - 1)
    else if c[n - 1].ref == 0 then n - 1 else NOENTRY
  }

  /** The entry that iget returns; NOENTRY for the panic. */
  function Place(c: seq<Entry>, id: Id): (e: int)
    ensures e == NOENTRY || 0 <= e < |c|
  {
    var e := FindLive(c, id, 0);
    if e != NOENTRY then e else FirstEmpty(c, |c|)
  }

  function Grab(c: seq<Entry>, id: Id): (r: seq<Entry>)
    ensures |r| == |c|
  {
    var e := Place(c, id);
    if e == NOENTRY then c
    else if c[e].ref > 0 && c[e].id == id then c[e := c[e].(ref := c[e].ref + 1)]
    else c[e := Entry(id, 1, false)]
  }

  function AddRef(c: seq<Entry>, e: int, n: int): (r: seq<Entry>)
    requires 0 <= e < |c|
    ensures |r| == |c|
  {
    c[e := c[e].(ref := c[e].ref + n)]
  }

  /** The cache entry with its valid flag as given; no reference changes. */
  function Flag(c: seq<Entry>, e: int, valid: bool): (r: seq<Entry>)
    requires 0 <= e < |c|
    ensures |r| == |c|
  {
    c[e := c[e].(valid := valid)]
  }

  lemma FlagKeeps(c: seq<Entry>, e: int, valid: bool, id: Id)
    requires 0 <= e < |c| && Ok(c)
    ensures Ok(Flag(c, e, valid)) && Refs(Flag(c, e, valid), id) == Refs(c, id)
    ensures Flag(c, e, valid)[e] == Entry(c[e].id, c[e].ref, valid)
    ensures forall k :: 0 <= k < |c| && k != e ==> Flag(c, e, valid)[k] == c[k]
  {
    var c' := Flag(c, e, valid);
    RefsUpdate(c, e, c'[e], id);
    forall a, b ensures UniqueAt(c', a, b) { assert UniqueAt(c, a, b); }
  }

  lemma {:induction false} RefsOnly(c: seq<Entry>, e: int, id: Id)
    requires forall k :: 0 <= k < |c| && k != e ==> c[k].id != id || c[k].ref == 0
    ensures Refs(c, id) == if 0 <= e < |c| && c[e].id == id then c[e].ref else 0
  {
    if c != [] { RefsOnly(c[..|c| - 1], e, id); }
  }

  /** An entry in use holds all the references to its inode. */
  lemma LiveHoldsAll(c: seq<Entry>, e: int)
    requires Ok(c) && Live(c, e)
    ensures Refs(c, c[e].id) == c[e].ref
  {
    forall k | 0 <= k < |c| && k != e ensures c[k].id != c[e].id || c[k].ref == 0 { assert UniqueAt(c, k, e); }
    RefsOnly(c, e, c[e].id);
  }

  /** iget adds one reference to its inode and touches no other; the entry is the inode's only one, and one that it
      just got must be read before use. */
  lemma IgetAdds(c: seq<Entry>, id: Id, other: Id)
    requires Ok(c) && Place(c, id) != NOENTRY
    ensures Ok(Grab(c, id)) && Live(Grab(c, id), Place(c, id)) && Grab(c, id)[Place(c, id)].id == id
    ensures Refs(Grab(c, id), other) == Refs(c, other) + if other == id then 1 else 0
    ensures var e := Place(c, id); Grab(c, id)[e].valid <==> Live(c, e) && c[e].id == id && c[e].valid
    ensures forall k :: 0 <= k < |c| && k != Place(c, id) ==> Grab(c, id)[k] == c[k]
  {
    var e := Place(c, id);
    var c' := Grab(c, id);
    RefsUpdate(c, e, c'[e], other);
    forall a, b ensures UniqueAt(c', a, b) { assert UniqueAt(c, a, b); }
  }

  lemma AddRefAdds(c: seq<Entry>, e: int, n: int, other: Id)
    requires Ok(c) && Live(c, e) && (n == 1 || n == -1)
    ensures Ok(AddRef(c, e, n))
    ensures Refs(AddRef(c, e, n), other) == Refs(c, other) + if other == c[e].id then n else 0
  {
    var c' := AddRef(c, e, n);
    RefsUpdate(c, e, c'[e], other);
    forall a, b ensures UniqueAt(c', a, b) { assert UniqueAt(c, a, b); }
  }

  // ---- Walking a path

  function KindAt(fs: Fs, inum: int): int
  {
    if HasInode(fs, inum) then fs.inodes[inum].kind else 0
  }

  function LinksAt(fs: Fs, inum: int): int
  {
    if HasInode(fs, inum) then fs.inodes[inum].nlink else 1
  }

  predicate IsDir(fs: Fs, id: Id)
  {
    KindAt(fs, id.inum) == Directory.T_DIR
  }

  /** dirlookup in the directory's bytes. */
  function Look(fs: Fs, id: Id, name: string): Directory.Found
    requires IsDir(fs, id)
  {
    Directory.LookFrom(File(fs, id.inum), name, 0)
  }

  /** Torn stands for dirlookup's panic, Untyped for ilock's on a free inode. */
  datatype Where = Missing | Torn | Untyped | Reached(id: Id)

  /** One name further. */
  function Down(fs: Fs, w: Where, name: string): Where
  {
    if !w.Reached? then w
    else if KindAt(fs, w.id.inum) == 0 then Untyped
    else if !IsDir(fs, w.id) then Missing
    else
      match Look(fs, w.id, name)
      case Torn => Torn
      case Absent => Missing
      case Present(inum, _) => Reached(Id(w.id.dev, inum))
  }

  /** Following names from an inode. */
  function Follow(fs: Fs, id: Id, names: seq<string>): Where
    decreases |names|
  {
    if names == [] then Reached(id) else Down(fs, Follow(fs, id, names[..|names| - 1]), names[|names| - 1])
  }

  /** What namex looks for: the inode at the end, or the directory before the last name. */
  function Target(fs: Fs, id: Id, names: seq<string>, parent: bool): Where
  {
    if !parent then Follow(fs, id, names)
    else if names == [] then Missing
    else
      var w := Follow(fs, id, names[..|names| - 1]);
      if w.Reached? && KindAt(fs, w.id.inum) == 0 then Untyped
      else if w.Reached? && !IsDir(fs, w.id) then Missing else w
  }

  lemma {:induction false} FollowStuck(fs: Fs, w: Where, id: Id, names: seq<string>)
    requires names != [] && Down(fs, Reached(id), names[0]) == w && !w.Reached?
    ensures Follow(fs, id, names) == w
    decreases |names|
  {
    hide Down;
    var n := |names| - 1;
    if n == 0 { assert names[..n] == []; } else { FollowStuck(fs, w, id, names[..n]); }
    DownStuck(fs, w, names[n]);
  }

  lemma DownStuck(fs: Fs, w: Where, name: string)
    ensures !w.Reached? ==> Down(fs, w, name) == w
  {
  }

  /** Following from the front. */
  lemma {:induction false} FollowFirst(fs: Fs, id: Id, names: seq<string>)
    requires names != []
    ensures var w := Down(fs, Reached(id), names[0]);
      Follow(fs, id, names) == if w.Reached? then Follow(fs, w.id, names[1..]) else w
    decreases |names|
  {
    hide Down;
    var n := |names| - 1;
    var front := names[..n];
    var w := Down(fs, Reached(id), names[0]);
    if !w.Reached? {
      FollowStuck(fs, w, id, names);
    } else if front == [] {
      assert names[1..] == [] && names[0] == names[n];
      assert Follow(fs, id, front) == Reached(id);
    } else {
      FollowFirst(fs, id, front);
      var rest := names[1..];
      assert rest[..|rest| - 1] == front[1..] && rest[|rest| - 1] == names[n];
    }
  }

  /** A path does not leave its device. */
  lemma {:induction false} FollowStays(fs: Fs, id: Id, names: seq<string>)
    ensures var w := Follow(fs, id, names); w.Reached? ==> w.id.dev == id.dev
    decreases |names|
  {
    hide Look;
    if names != [] { FollowStays(fs, id, names[..|names| - 1]); }
  }

  /** The inode of a path is what its last name is in the directory that nameiparent finds. */
  lemma ParentThenLast(fs: Fs, id: Id, names: seq<string>)
    requires names != []
    ensures Target(fs, id, names, false) == Down(fs, Target(fs, id, names, true), names[|names| - 1])
  {
    hide Look, Follow;
    FollowUnfolds(fs, id, names);
  }

  lemma FollowUnfolds(fs: Fs, id: Id, names: seq<string>)
    requires names != []
    ensures Follow(fs, id, names) == Down(fs, Follow(fs, id, names[..|names| - 1]), names[|names| - 1])
  {
  }

  /** The steps of namex's loop. */
  lemma TargetStep(fs: Fs, id: Id, names: seq<string>, parent: bool)
    requires names != []
    ensures Target(fs, id, names, parent) ==
      if KindAt(fs, id.inum) == 0 then Untyped
      else if !IsDir(fs, id) then Missing
      else if parent && |names| == 1 then Reached(id)
      else var w := Down(fs, Reached(id), names[0]);
           if w.Reached? then Target(fs, w.id, names[1..], parent) else w
  {
    hide Look, KindAt;
    var n := |names| - 1;
    if !parent {
      FollowFirst(fs, id, names);
    } else if n == 0 {
      assert names[..n] == [];
    } else {
      FollowFirst(fs, id, names[..n]);
      assert names[1..][..|names[1..]| - 1] == names[..n][1..];
    }
  }

  /** Whatever a directory names, and the root, has links. */
  ghost predicate Linked(fs: Fs)
  {
    && LinksAt(fs, ROOTINO) != 0
    && forall id, name :: IsDir(fs, id) && Look(fs, id, name).Present? ==> LinksAt(fs, Look(fs, id, name).inum) != 0
  }

  function Clipped(es: seq<string>): (r: seq<string>)
    ensures |r| == |es|
  {
    seq(|es|, k requires 0 <= k < |es| => Clip(es[k]))
  }

  /** The names namex looks up from position i of a path. */
  function Names(path: string, i: int): seq<string>
    requires 0 <= i <= |path|
  {
    Clipped(Elements(path[i..]))
  }

  lemma NamesStep(path: string, i: int)
    requires 0 <= i <= |path|
    ensures var r := SkipElem(path, i); var names := Names(path, i);
      if r.NoElem? then names == []
      else names != [] && r.name == names[0] && Names(path, r.next) == names[1..] && (r.next == |path| <==> |names| == 1)
  {
    SkipElemIs(path, i);
    hide Elements, SkipElem;
    var es := Elements(path[i..]);
    if es != [] { assert Clipped(es)[1..] == Clipped(es[1..]); }
  }

  /** The panics of iget, dirlookup and ilock; otherwise the entry found, or nothing. */
  datatype Result = Exhausted | TornEntry | NoType | NotFound | Entered(e: int)

  datatype Locked = Unreadable | NotDir | Dir

  /** A turn of namex's loop ends the walk or goes on at the next entry. */
  datatype Turned = Stop(r: Result) | Go(next: int, inum: int)

  /** What a turn at inode cur makes of the cache c1, the walk having started with c. */
  ghost predicate TurnIs(c: seq<Entry>, c1: seq<Entry>, c2: seq<Entry>, fs: Fs, ip: int, cur: Id, name: string, last: bool,
                         t: Turned, freed: bool)
  {
    var w := Down(fs, Reached(cur), name);
    match t
    case Go(next, inum) =>
      && !last && IsDir(fs, cur) && w == Reached(Id(cur.dev, inum)) && Walking(c, c2, next, Id(cur.dev, inum))
      && (!freed && Typed(c1, fs) ==> Typed(c2, fs))
    case Stop(Entered(e)) => last && IsDir(fs, cur) && e == ip && Walking(c, c2, ip, cur)
    case Stop(NotFound) =>
      && (forall id :: Refs(c2, id) == Refs(c, id))
      && ((KindAt(fs, cur.inum) == 0 && !Typed(c1, fs)) || (KindAt(fs, cur.inum) != 0 && !IsDir(fs, cur))
          || (!last && IsDir(fs, cur) && w == Missing))
    case Stop(NoType) => KindAt(fs, cur.inum) == 0
    case Stop(TornEntry) => !last && IsDir(fs, cur) && w == Torn
    case Stop(Exhausted) => forall k :: 0 <= k < |c2| ==> Live(c2, k)
  }

  lemma TurnTells(c: seq<Entry>, c1: seq<Entry>, c2: seq<Entry>, fs: Fs, ip: int, cur: Id, names: seq<string>, parent: bool,
                  t: Turned, freed: bool)
    requires names != [] && TurnIs(c, c1, c2, fs, ip, cur, names[0], parent && |names| == 1, t, freed)
    ensures t.Go? ==>
      && Walking(c, c2, t.next, Id(cur.dev, t.inum)) && (!freed && Typed(c1, fs) ==> Typed(c2, fs))
      && Target(fs, cur, names, parent) == Target(fs, Id(cur.dev, t.inum), names[1..], parent)
    ensures t.Stop? && t.r.Entered? ==>
      && parent && |names| == 1 && Live(c2, t.r.e) && 0 <= t.r.e < |c2| && c2[t.r.e].id == cur
      && Target(fs, cur, names, parent) == Reached(cur)
      && forall id :: Refs(c2, id) == Refs(c, id) + if id == cur then 1 else 0
    ensures t.Stop? && t.r.NotFound? ==>
      var w := Target(fs, cur, names, parent);
      (forall id :: Refs(c2, id) == Refs(c, id)) && (w == Missing || (w == Untyped && !Typed(c1, fs)))
    ensures t.Stop? && t.r.NoType? ==> Target(fs, cur, names, parent) == Untyped
    ensures t.Stop? && t.r.TornEntry? ==> Target(fs, cur, names, parent) == Torn
    ensures t.Stop? && t.r.Exhausted? ==> forall k :: 0 <= k < |c2| ==> Live(c2, k)
  {
    TargetStep(fs, cur, names, parent);
    hide Target, Typed, Refs, Look;
  }

  lemma StopIs(c: seq<Entry>, c1: seq<Entry>, c2: seq<Entry>, fs: Fs, ip: int, cur: Id, name: string, last: bool, r: Result,
               freed: bool)
    requires match r
      case Entered(e) => last && IsDir(fs, cur) && e == ip && Walking(c, c2, ip, cur)
      case NotFound =>
        && (forall id :: Refs(c2, id) == Refs(c, id))
        && ((KindAt(fs, cur.inum) == 0 && !Typed(c1, fs)) || (KindAt(fs, cur.inum) != 0 && !IsDir(fs, cur))
            || (!last && IsDir(fs, cur) && Down(fs, Reached(cur), name) == Missing))
      case NoType => KindAt(fs, cur.inum) == 0
      case TornEntry => !last && IsDir(fs, cur) && Down(fs, Reached(cur), name) == Torn
      case Exhausted => forall k :: 0 <= k < |c2| ==> Live(c2, k)
    ensures TurnIs(c, c1, c2, fs, ip, cur, name, last, Stop(r), freed)
  {
    hide Down, KindAt, Walking, Typed, Refs;
  }

  lemma GoIs(c: seq<Entry>, c1: seq<Entry>, c2: seq<Entry>, fs: Fs, ip: int, cur: Id, name: string, last: bool, next: int,
             inum: int, freed: bool)
    requires !last && IsDir(fs, cur) && Down(fs, Reached(cur), name) == Reached(Id(cur.dev, inum))
    requires Walking(c, c2, next, Id(cur.dev, inum)) && (!freed && Typed(c1, fs) ==> Typed(c2, fs))
    ensures TurnIs(c, c1, c2, fs, ip, cur, name, last, Go(next, inum), freed)
  {
  }

  /** An inode that has been read has a type. */
  ghost predicate Typed(c: seq<Entry>, fs: Fs)
  {
    forall e :: Live(c, e) && c[e].valid ==> KindAt(fs, c[e].id.inum) != 0
  }

  class ICache {
    var inode: seq<Entry>

    constructor (n: nat)
      ensures Ok(inode) && |inode| == n && forall id :: Refs(inode, id) == 0
    {
      inode := seq(n, _ => Entry(Id(0, 0), 0, false));
      new;
      forall a, b ensures UniqueAt(inode, a, b) { }
      forall id ensures Refs(inode, id) == 0 { NoRefs(inode, id); }
    }

    method Iget(id: Id) returns (e: int)
      requires Ok(inode)
      modifies this
      ensures Ok(inode) && e == Place(old(inode), id) && inode == Grab(old(inode), id)
      ensures e != NOENTRY ==> Live(inode, e) && inode[e].id == id
      ensures e == NOENTRY ==> forall k :: 0 <= k < |inode| ==> Live(inode, k)
    {
      ghost var c := inode;
      var empty := NOENTRY;
      e := 0;
      while e < |inode|
        invariant 0 <= e <= |inode| && inode == c
        invariant FindLive(c, id, 0) == FindLive(c, id, e) && empty == FirstEmpty(c, e)
      {
        if inode[e].ref > 0 && inode[e].id == id {
          IgetAdds(c, id, id);
          inode := inode[e := inode[e].(ref := inode[e].ref + 1)];
          return;
        }
        if empty == NOENTRY && inode[e].ref == 0 {
          empty := e;
        }
        e := e + 1;
      }
      if empty == NOENTRY {
        return NOENTRY;
      }
      IgetAdds(c, id, id);
      e := empty;
      inode := inode[e := Entry(id, 1, false)];
    }

    method Idup(e: int)
      requires Ok(inode) && Live(inode, e)
      modifies this
      ensures Ok(inode) && inode == AddRef(old(inode), e, 1)
    {
      AddRefAdds(inode, e, 1, inode[e].id);
      inode := inode[e := inode[e].(ref := inode[e].ref + 1)];
    }

    /** ilock, once the lock is had: the inode is read if need be.  False stands for the panic on a free one. */
    method Ilock(e: int, fs: FileSystem.FileSystem) returns (ok: bool)
      requires Ok(inode) && Live(inode, e) && Inv(fs.State())
      modifies this
      ensures Ok(inode) && inode == if ok then Flag(old(inode), e, true) else old(inode)
      ensures ok ==> inode[e] == Entry(old(inode)[e].id, old(inode)[e].ref, true)
      ensures forall k :: 0 <= k < |inode| && k != e ==> inode[k] == old(inode)[k]
      ensures ok <==> old(inode)[e].valid || KindAt(fs.State(), old(inode)[e].id.inum) != 0
    {
      FlagKeeps(inode, e, true, inode[e].id);
      KindIs(fs.State(), inode[e].id.inum);
      fs.StateIs();
      hide Inv, HasInode;
      if !inode[e].valid {
        var inum := inode[e].id.inum;
        if !(0 <= inum < |fs.inodes|) || fs.inodes[inum].kind == 0 {
          return false;
        }
        inode := inode[e := inode[e].(valid := true)];
      }
      assert inode == Flag(old(inode), e, true);
      return true;
    }

    /** The last reference to an inode that has been read and has no links frees it, blocks and all. */
    method Iput(e: int, fs: FileSystem.FileSystem) returns (freed: bool)
      requires Ok(inode) && Live(inode, e) && Inv(fs.State())
      modifies this, fs
      ensures Ok(inode) && Inv(fs.State())
      ensures freed <==> old(inode)[e].ref == 1 && old(inode)[e].valid && LinksAt(old(fs.State()), old(inode)[e].id.inum) == 0
      ensures inode == AddRef(if freed then Flag(old(inode), e, false) else old(inode), e, -1)
      ensures inode[e] == Entry(old(inode)[e].id, old(inode)[e].ref - 1, old(inode)[e].valid && !freed)
      ensures |old(fs.State()).dinodes| == |old(fs.State()).inodes|
      ensures fs.State() == if freed then FreeInode(old(fs.State()), old(inode)[e].id.inum) else old(fs.State())
    {
      ghost var st, c := fs.State(), inode;
      hide Inv, HasInode, FreeInode;
      SameLengths(st);
      LinksAre(st, inode[e].id.inum);
      fs.StateIs();
      AddRefAdds(inode, e, -1, inode[e].id);
      FlagKeeps(inode, e, false, inode[e].id);
      AddRefAdds(Flag(inode, e, false), e, -1, inode[e].id);
      var inum := inode[e].id.inum;
      freed := inode[e].ref == 1 && inode[e].valid && 0 <= inum < |fs.inodes| && fs.inodes[inum].nlink == 0;
      if freed {
        FreeInodeFrees(st, inum);
        fs.FreeInode(inum);
        inode := inode[e := inode[e].(valid := false)];
      }
      inode := inode[e := inode[e].(ref := inode[e].ref - 1)];
    }

    /** namex, for namei and nameiparent. */
    method Namex(path: string, parent: bool, cwd: int, fs: FileSystem.FileSystem)
      returns (r: Result, name: string, freed: bool)
      requires Ok(inode) && Live(inode, cwd) && Inv(fs.State())
      modifies this, fs
      ensures var start := if |path| > 0 && path[0] == '/' then Id(ROOTDEV, ROOTINO) else old(inode)[cwd].id;
        NamexDone(old(inode), old(fs.State()), start, parent, path, inode, fs.State(), r, name, freed)
    {
      hide *;
      LiveInRange(inode, cwd);
      ghost var c, st := inode, fs.State();
      ghost var start := if |path| > 0 && path[0] == '/' then Id(ROOTDEV, ROOTINO) else inode[cwd].id;
      name, freed := "", false;
      var ip := Start(path, cwd, st);
      if ip == NOENTRY {
        NoEntryFree(c, st, start, parent, path, inode, name);
        return Exhausted, name, false;
      }
      var i := 0;
      ghost var cur := start;
      NamexStarts(c, st, start, parent, path, inode, ip);
      var elem := Skipelem(path, i);
      while elem.Elem?
        invariant 0 <= i <= |path| && elem == SkipElem(path, i)
        invariant Namexing(c, st, start, parent, path, i, inode, ip, cur, fs.State(), freed)
        decreases |path| - i
      {
        ghost var c1, fs1, freed1 := inode, fs.State(), freed;
        WalkIs(c, st, start, parent, path, i, inode, ip, cur, fs.State(), freed);
        ElemForward(path, i);
        name := elem.name;
        var t, f := Turn(ip, name, parent && elem.next == |path|, fs, c, cur, st);
        freed := freed || f;
        NamexTurns(c, st, start, parent, path, i, c1, ip, cur, fs1, freed1, inode, fs.State(), t, f);
        if t.Stop? {
          return t.r, name, freed;
        }
        ip := t.next;
        cur := Id(cur.dev, t.inum);
        i := elem.next;
        elem := Skipelem(path, i);
      }
      WalkIs(c, st, start, parent, path, i, inode, ip, cur, fs.State(), freed);
      ghost var c1, fs1, freed1 := inode, fs.State(), freed;
      r := Entered(ip);
      if parent {
        var f := Drop(ip, fs, c, cur, st);
        r, freed := NotFound, freed || f;
      }
      NamexEnds(c, st, start, parent, path, i, c1, ip, cur, fs1, freed1, inode, fs.State(), name, freed);
    }

    /** One turn of its loop, at a name; `last` tells that the directory itself is wanted. */
    method Turn(ip: int, name: string, last: bool, fs: FileSystem.FileSystem, ghost c: seq<Entry>, ghost cur: Id, ghost st: Fs)
      returns (t: Turned, freed: bool)
      requires Walking(c, inode, ip, cur) && Inv(fs.State())
      modifies this, fs
      ensures Ok(inode) && Inv(fs.State()) && (!freed ==> fs.State() == old(fs.State()))
      ensures old(fs.State()) == st && Kept(st, old(inode), cur) ==> !freed
      ensures TurnIs(c, old(inode), inode, old(fs.State()), ip, cur, name, last, t, freed)
      ensures old(fs.State()) == st && Linked(st) && t.Go? ==> Kept(st, inode, Id(cur.dev, t.inum))
    {
      hide *;
      freed := false;
      ghost var c1, fs1 := inode, fs.State();
      var l := LockDir(ip, fs, c, cur, st);
      WalkingMeans(c, inode, ip, cur);
      if l == Unreadable {
        t := Stop(NoType);
        StopIs(c, c1, inode, fs1, ip, cur, name, last, NoType, freed);
        return;
      }
      if l == NotDir {
        freed := Drop(ip, fs, c, cur, st);
        t := Stop(NotFound);
        StopIs(c, c1, inode, fs1, ip, cur, name, last, NotFound, freed);
        return;
      }
      if last {
        t := Stop(Entered(ip));
        StopIs(c, c1, inode, fs1, ip, cur, name, last, Entered(ip), freed);
        return;
      }
      var found := LookIn(ip, fs, name, c, cur);
      DownIs(fs1, cur, name);
      if found.Torn? {
        t := Stop(TornEntry);
        StopIs(c, c1, inode, fs1, ip, cur, name, last, TornEntry, freed);
        return;
      }
      if found.Absent? {
        freed := Drop(ip, fs, c, cur, st);
        t := Stop(NotFound);
        StopIs(c, c1, inode, fs1, ip, cur, name, last, NotFound, freed);
        return;
      }
      var next, f := Step(ip, found.inum, fs, c, cur, fs1);
      freed := f;
      if next == NOENTRY {
        t := Stop(Exhausted);
        StopIs(c, c1, inode, fs1, ip, cur, name, last, Exhausted, freed);
        return;
      }
      LinkedMeans(fs1, cur, name, inode, Id(cur.dev, found.inum));
      t := Go(next, found.inum);
      GoIs(c, c1, inode, fs1, ip, cur, name, last, next, found.inum, freed);
    }

    /** ilock, and the test for a directory. */
    method LockDir(ip: int, fs: FileSystem.FileSystem, ghost c: seq<Entry>, ghost cur: Id, ghost st: Fs) returns (l: Locked)
      requires Walking(c, inode, ip, cur) && Inv(fs.State())
      modifies this
      ensures Walking(c, inode, ip, cur) && (Kept(st, old(inode), cur) ==> Kept(st, inode, cur))
      ensures Typed(old(inode), fs.State()) ==> Typed(inode, fs.State())
      ensures l == Unreadable ==> KindAt(fs.State(), cur.inum) == 0
      ensures l == NotDir && Typed(old(inode), fs.State()) ==> KindAt(fs.State(), cur.inum) != 0
      ensures l == NotDir ==> !IsDir(fs.State(), cur)
      ensures l == Dir ==> IsDir(fs.State(), cur) && KindAt(fs.State(), cur.inum) != 0
    {
      ghost var c1 := inode;
      LockKeeps(c, inode, ip, cur, st);
      LockTyped(c1, ip, fs.State());
      KindIs(fs.State(), cur.inum);
      WalkingMeans(c, inode, ip, cur);
      hide Walking, Kept, Inv, HasInode, Typed;
      var ok := Ilock(ip, fs);
      if !ok {
        return Unreadable;
      }
      fs.StateIs();
      var inum := inode[ip].id.inum;
      return if 0 <= inum < |fs.inodes| && fs.inodes[inum].kind == Directory.T_DIR then Dir else NotDir;
    }

    /** dirlookup, before its iget. */
    method LookIn(ip: int, fs: FileSystem.FileSystem, name: string, ghost c: seq<Entry>, ghost cur: Id)
      returns (found: Directory.Found)
      requires Walking(c, inode, ip, cur) && Inv(fs.State()) && IsDir(fs.State(), cur)
      modifies fs
      ensures fs.State() == old(fs.State()) && found == Look(fs.State(), cur, name)
    {
      WalkingMeans(c, inode, ip, cur);
      hide Walking, Inv;
      found := Directory.Dirlookup(fs, inode[ip].id.inum, name);
    }

    /** iput at the end of a walk that finds nothing. */
    method Drop(ip: int, fs: FileSystem.FileSystem, ghost c: seq<Entry>, ghost cur: Id, ghost st: Fs) returns (freed: bool)
      requires Walking(c, inode, ip, cur) && Inv(fs.State())
      modifies this, fs
      ensures Ok(inode) && Inv(fs.State()) && (!freed ==> fs.State() == old(fs.State()))
      ensures fs.State() == old(fs.State()) || freed
      ensures old(fs.State()) == st && Kept(st, old(inode), cur) ==> !freed
      ensures forall id :: Refs(inode, id) == Refs(c, id)
    {
      DropLast(c, inode, ip, cur);
      WalkingMeans(c, inode, ip, cur);
      KeptMeans(inode, ip, cur, st);
      hide Walking, Kept, Inv, AddRef, Flag, Refs, FreeInode;
      freed := Iput(ip, fs);
    }

    /** Where it starts: the root or the working directory, with a reference of its own. */
    method Start(path: string, cwd: int, ghost st: Fs) returns (ip: int)
      requires Ok(inode) && Live(inode, cwd)
      modifies this
      ensures Ok(inode)
      ensures ip == NOENTRY ==> forall k :: 0 <= k < |inode| ==> Live(inode, k)
      ensures var start := if |path| > 0 && path[0] == '/' then Id(ROOTDEV, ROOTINO) else old(inode)[cwd].id;
        ip != NOENTRY ==> Walking(old(inode), inode, ip, start) && (Linked(st) ==> Kept(st, inode, start))
      ensures Typed(old(inode), st) ==> Typed(inode, st)
    {
      ghost var c := inode;
      if |path| > 0 && path[0] == '/' {
        ip := Iget(Id(ROOTDEV, ROOTINO));
        if ip != NOENTRY {
          forall id { IgetAdds(c, Id(ROOTDEV, ROOTINO), id); }
        }
      } else {
        Idup(cwd);
        ip := cwd;
        forall id { AddRefAdds(c, cwd, 1, id); }
        LiveHoldsAll(c, cwd);
      }
    }

    /** Takes the entry found in the directory and drops the directory. */
    method Step(ip: int, inum: int, fs: FileSystem.FileSystem, ghost c: seq<Entry>, ghost cur: Id, ghost st: Fs)
      returns (next: int, freed: bool)
      requires Walking(c, inode, ip, cur) && Inv(fs.State())
      modifies this, fs
      ensures Ok(inode) && Inv(fs.State()) && (!freed ==> fs.State() == old(fs.State()))
      ensures old(fs.State()) == st && Kept(st, old(inode), cur) ==> !freed
      ensures next == NOENTRY ==> forall k :: 0 <= k < |inode| ==> Live(inode, k)
      ensures next != NOENTRY ==> Walking(c, inode, next, Id(cur.dev, inum))
      ensures !freed && Typed(old(inode), st) ==> Typed(inode, st)
    {
      freed := false;
      ghost var c1 := inode;
      WalkingMeans(c, c1, ip, cur);
      next := Iget(Id(inode[ip].id.dev, inum));
      if next != NOENTRY {
        MoveOn(c, c1, ip, cur, inum);
        KeptStill(c, c1, ip, cur, inum, st);
        KeptMeans(inode, ip, cur, st);
        StepTyped(c1, Id(cur.dev, inum), ip, st);
        hide Walking, Kept, Inv, AddRef, Flag, Refs, FreeInode, Grab, Typed;
        freed := Iput(ip, fs);
      }
    }
  }

  /** namex at position i of the path: the walk is at cur, and has what is left of the path to follow. */
  ghost predicate Namexing(c: seq<Entry>, st: Fs, start: Id, parent: bool, path: string, i: int, c1: seq<Entry>, ip: int,
                           cur: Id, fs: Fs, freed: bool)
  {
    && 0 <= i <= |path| && Walking(c, c1, ip, cur)
    && Inv(fs) && (!freed ==> fs == st) && (Linked(st) ==> !freed && Kept(st, c1, cur))
    && (!freed ==> Target(st, start, Names(path, 0), parent) == Target(st, cur, Names(path, i), parent))
    && Suffix(Names(path, i), Names(path, 0)) && (!freed && Typed(c, st) ==> Typed(c1, st))
  }

  /** What namex promises: the inode that the path names, or the directory before its last name, with one
      reference more, and no other reference changed; `freed` tells whether an inode without links was freed on
      the way, and none is, if all that is named has links. */
  ghost predicate NamexDone(c: seq<Entry>, st: Fs, start: Id, parent: bool, path: string, c2: seq<Entry>, fs: Fs, r: Result,
                            name: string, freed: bool)
  {
    var names := Names(path, 0);
    var w := Target(st, start, names, parent);
    && Ok(c2) && Inv(fs) && (!freed ==> fs == st) && (Linked(st) ==> !freed)
    && match r
       case Exhausted => forall k :: 0 <= k < |c2| ==> Live(c2, k)
       case TornEntry => !freed ==> w.Torn?
       case NoType => !freed ==> w.Untyped?
       case NotFound =>
         && (!freed ==> w.Missing? || (w.Untyped? && !Typed(c, st)))
         && forall id :: Refs(c2, id) == Refs(c, id)
       case Entered(e) =>
         && Live(c2, e) && (!freed ==> w == Reached(c2[e].id))
         && (parent ==> names != [] && name == names[|names| - 1])
         && forall id :: Refs(c2, id) == Refs(c, id) + if id == c2[e].id then 1 else 0
  }

  lemma NoEntryFree(c: seq<Entry>, st: Fs, start: Id, parent: bool, path: string, c2: seq<Entry>, name: string)
    requires Ok(c2) && Inv(st) && forall k :: 0 <= k < |c2| ==> Live(c2, k)
    ensures NamexDone(c, st, start, parent, path, c2, st, Exhausted, name, false)
  {
  }

  lemma NamexStarts(c: seq<Entry>, st: Fs, start: Id, parent: bool, path: string, c1: seq<Entry>, ip: int)
    requires Walking(c, c1, ip, start) && Inv(st) && (Linked(st) ==> Kept(st, c1, start)) && (Typed(c, st) ==> Typed(c1, st))
    ensures Namexing(c, st, start, parent, path, 0, c1, ip, start, st, false)
  {
    SuffixAll(Names(path, 0));
    hide Walking, Inv, Linked, Kept, Typed, Target, Names, Suffix;
  }

  lemma WalkIs(c: seq<Entry>, st: Fs, start: Id, parent: bool, path: string, i: int, c1: seq<Entry>, ip: int, cur: Id, fs: Fs,
               freed: bool)
    requires Namexing(c, st, start, parent, path, i, c1, ip, cur, fs, freed)
    ensures Walking(c, c1, ip, cur) && Inv(fs)
  {
  }

  lemma NamexTurns(c: seq<Entry>, st: Fs, start: Id, parent: bool, path: string, i: int, c1: seq<Entry>, ip: int, cur: Id,
                   fs1: Fs, freed1: bool, c2: seq<Entry>, fs2: Fs, t: Turned, f: bool)
    requires Namexing(c, st, start, parent, path, i, c1, ip, cur, fs1, freed1) && SkipElem(path, i).Elem?
    requires Ok(c2) && Inv(fs2) && (!f ==> fs2 == fs1) && (fs1 == st && Kept(st, c1, cur) ==> !f)
    requires var e := SkipElem(path, i); TurnIs(c, c1, c2, fs1, ip, cur, e.name, parent && e.next == |path|, t, f)
    requires fs1 == st && Linked(st) && t.Go? ==> Kept(st, c2, Id(cur.dev, t.inum))
    ensures var e := SkipElem(path, i);
      if t.Stop? then NamexDone(c, st, start, parent, path, c2, fs2, t.r, e.name, freed1 || f)
      else Namexing(c, st, start, parent, path, e.next, c2, t.next, Id(cur.dev, t.inum), fs2, freed1 || f)
  {
    NamesStep(path, i);
    ElemForward(path, i);
    SuffixStep(Names(path, i), Names(path, 0));
    TurnTells(c, c1, c2, fs1, ip, cur, Names(path, i), parent, t, f);
    hide Walking, Inv, Linked, Kept, Typed, Target, Names, Suffix, TurnIs, SkipElem, Ok, Refs;
  }

  lemma NamexEnds(c: seq<Entry>, st: Fs, start: Id, parent: bool, path: string, i: int, c1: seq<Entry>, ip: int, cur: Id,
                  fs1: Fs, freed1: bool, c2: seq<Entry>, fs2: Fs, name: string, freed: bool)
    requires Namexing(c, st, start, parent, path, i, c1, ip, cur, fs1, freed1) && SkipElem(path, i).NoElem?
    requires !parent ==> c2 == c1 && fs2 == fs1 && freed == freed1
    requires parent ==> Ok(c2) && Inv(fs2) && forall id :: Refs(c2, id) == Refs(c, id)
    requires parent ==> (freed1 ==> freed) && (!freed ==> fs2 == fs1) && (fs1 == st && Kept(st, c1, cur) && !freed1 ==> !freed)
    ensures NamexDone(c, st, start, parent, path, c2, fs2, if parent then NotFound else Entered(ip), name, freed)
  {
    NamesStep(path, i);
    TargetEnd(st, cur, parent);
    WalkingMeans(c, c1, ip, cur);
    hide Walking, Inv, Linked, Kept, Typed, Target, Names, Suffix, SkipElem, Ok, Refs;
  }

  /** The inode at cur is not freed when the walk lets go of it. */
  predicate Kept(fs: Fs, c: seq<Entry>, cur: Id)
  {
    LinksAt(fs, cur.inum) != 0 || Refs(c, cur) >= 2
  }

  lemma KeptMeans(c: seq<Entry>, ip: int, cur: Id, st: Fs)
    requires Ok(c) && Live(c, ip) && c[ip].id == cur
    ensures Kept(st, c, cur) ==> c[ip].ref >= 2 || LinksAt(st, cur.inum) != 0
  {
    LiveHoldsAll(c, ip);
  }

  lemma LockKeeps(c0: seq<Entry>, c: seq<Entry>, ip: int, cur: Id, st: Fs)
    requires Walking(c0, c, ip, cur)
    ensures Walking(c0, Flag(c, ip, true), ip, cur) && (Kept(st, c, cur) ==> Kept(st, Flag(c, ip, true), cur))
  {
    forall id ensures Refs(Flag(c, ip, true), id) == Refs(c, id) { FlagKeeps(c, ip, true, id); }
    FlagKeeps(c, ip, true, cur);
  }

  lemma LockTyped(c: seq<Entry>, ip: int, fs: Fs)
    requires Live(c, ip)
    ensures Typed(c, fs) && KindAt(fs, c[ip].id.inum) != 0 ==> Typed(Flag(c, ip, true), fs)
    ensures Typed(c, fs) && c[ip].valid ==> KindAt(fs, c[ip].id.inum) != 0
  {
    hide KindAt;
    var c' := Flag(c, ip, true);
    assert forall e :: Live(c', e) ==> Live(c, e) && c'[e].id == c[e].id;
  }

  lemma StepTyped(c: seq<Entry>, next: Id, ip: int, fs: Fs)
    requires 0 <= ip < |c|
    ensures Typed(c, fs) ==> Typed(Grab(c, next), fs) && Typed(AddRef(Grab(c, next), ip, -1), fs)
  {
    hide KindAt;
    var c1 := Grab(c, next);
    var c2 := AddRef(c1, ip, -1);
    assert forall e :: Live(c1, e) && c1[e].valid ==> Live(c, e) && c[e].valid && c1[e].id == c[e].id;
    assert forall e :: Live(c2, e) ==> Live(c1, e) && c2[e].id == c1[e].id && c2[e].valid == c1[e].valid;
  }

  lemma KindIs(fs: Fs, inum: int)
    requires Inv(fs)
    ensures KindAt(fs, inum) == if 0 <= inum < |fs.inodes| then fs.inodes[inum].kind else 0
  {
    assert InodeAt(fs, inum);
  }

  lemma LinksAre(fs: Fs, inum: int)
    requires Inv(fs)
    ensures LinksAt(fs, inum) == if 0 <= inum < |fs.inodes| then fs.inodes[inum].nlink else 1
    ensures 0 <= inum < |fs.inodes| ==> HasInode(fs, inum)
  {
    assert InodeAt(fs, inum);
  }

  lemma SameLengths(fs: Fs)
    requires Inv(fs)
    ensures |fs.dinodes| == |fs.inodes|
  {
  }

  /** The directory a walk is in is kept when the next inode is taken, if it was before. */
  lemma KeptStill(c0: seq<Entry>, c: seq<Entry>, ip: int, cur: Id, inum: int, st: Fs)
    requires Walking(c0, c, ip, cur) && Place(c, Id(cur.dev, inum)) != NOENTRY
    ensures Kept(st, c, cur) ==> Kept(st, Grab(c, Id(cur.dev, inum)), cur)
    ensures Ok(Grab(c, Id(cur.dev, inum)))
  {
    IgetAdds(c, Id(cur.dev, inum), cur);
  }

  lemma DownIs(fs: Fs, cur: Id, name: string)
    requires IsDir(fs, cur)
    ensures var w := Down(fs, Reached(cur), name);
      match Look(fs, cur, name)
      case Torn => w == Torn
      case Absent => w == Missing
      case Present(inum, _) => w == Reached(Id(cur.dev, inum))
  {
  }

  lemma LinkedMeans(fs: Fs, cur: Id, name: string, c: seq<Entry>, next: Id)
    requires IsDir(fs, cur) && Look(fs, cur, name).Present? && next.inum == Look(fs, cur, name).inum
    ensures Linked(fs) ==> Kept(fs, c, next)
  {
  }

  lemma LiveInRange(c: seq<Entry>, e: int)
    requires Live(c, e)
    ensures 0 <= e < |c|
  {
  }

  lemma ElemForward(path: string, i: int)
    requires 0 <= i <= |path|
    ensures SkipElem(path, i).Elem? ==> i < SkipElem(path, i).next <= |path|
  {
  }

  lemma SuffixAll(names: seq<string>)
    ensures Suffix(names, names)
  {
  }

  lemma SuffixStep(s: seq<string>, t: seq<string>)
    requires Suffix(s, t) && s != []
    ensures Suffix(s[1..], t) && (|s| == 1 ==> t != [] && s[0] == t[|t| - 1])
  {
  }

  ghost predicate Suffix(s: seq<string>, t: seq<string>)
  {
    |s| <= |t| && s == t[|t| - |s|..]
  }

  lemma WalkingMeans(c0: seq<Entry>, c: seq<Entry>, ip: int, cur: Id)
    requires Walking(c0, c, ip, cur)
    ensures Ok(c) && Live(c, ip) && c[ip].id == cur
    ensures forall id :: Refs(c, id) == Refs(c0, id) + if id == cur then 1 else 0
  {
  }

  lemma TargetEnd(fs: Fs, id: Id, parent: bool)
    ensures Target(fs, id, [], parent) == if parent then Missing else Reached(id)
  {
  }

  lemma {:induction false} NoRefs(c: seq<Entry>, id: Id)
    requires forall e :: 0 <= e < |c| ==> c[e].ref == 0
    ensures Refs(c, id) == 0
  {
    if c != [] { NoRefs(c[..|c| - 1], id); }
  }

  /** In the middle of a walk: one reference more than at its start, to the inode reached. */
  ghost predicate Walking(c0: seq<Entry>, c: seq<Entry>, ip: int, cur: Id)
  {
    && Ok(c) && Live(c, ip) && c[ip].id == cur
    && forall id :: Refs(c, id) == Refs(c0, id) + if id == cur then 1 else 0
  }

  lemma DropLast(c0: seq<Entry>, c: seq<Entry>, ip: int, cur: Id)
    requires Walking(c0, c, ip, cur)
    ensures forall id :: Refs(AddRef(c, ip, -1), id) == Refs(c0, id)
    ensures forall id :: Refs(AddRef(Flag(c, ip, false), ip, -1), id) == Refs(c0, id)
  {
    forall id ensures Refs(AddRef(c, ip, -1), id) == Refs(c0, id) { AddRefAdds(c, ip, -1, id); }
    forall id ensures Refs(AddRef(Flag(c, ip, false), ip, -1), id) == Refs(c0, id) {
      FlagKeeps(c, ip, false, id);
      AddRefAdds(Flag(c, ip, false), ip, -1, id);
    }
  }

  /** Taking the next inode before dropping the one before it. */
  lemma MoveOn(c0: seq<Entry>, c: seq<Entry>, ip: int, cur: Id, inum: int)
    requires Walking(c0, c, ip, cur) && Place(c, Id(cur.dev, inum)) != NOENTRY
    ensures var next := Id(cur.dev, inum); var e := Place(c, next); var c1 := Grab(c, next);
      && Live(c1, ip) && c1[ip].id == cur && Walking(c0, AddRef(c1, ip, -1), e, next)
      && (c1[ip].ref == 1 ==> Walking(c0, AddRef(Flag(c1, ip, false), ip, -1), e, next))
  {
    var next := Id(cur.dev, inum);
    var c1 := Grab(c, next);
    IgetAdds(c, next, next);
    FlagKeeps(c1, ip, false, next);
    forall id ensures Refs(c1, id) == Refs(c0, id) + (if id == cur then 1 else 0) + (if id == next then 1 else 0) {
      IgetAdds(c, next, id);
      assert Refs(c, id) == Refs(c0, id) + if id == cur then 1 else 0;
    }
    hide Grab;
    LetGo(c0, c1, ip, cur, Place(c, next), next);
    forall id ensures Refs(Flag(c1, ip, false), id) == Refs(c1, id) { FlagKeeps(c1, ip, false, id); }
    LetGo(c0, Flag(c1, ip, false), ip, cur, Place(c, next), next);
  }

  lemma LetGo(c0: seq<Entry>, c: seq<Entry>, ip: int, cur: Id, e: int, next: Id)
    requires Ok(c) && Live(c, ip) && c[ip].id == cur && Live(c, e) && c[e].id == next && (ip == e ==> c[e].ref >= 2)
    requires forall id :: Refs(c, id) == Refs(c0, id) + (if id == cur then 1 else 0) + (if id == next then 1 else 0)
    ensures Walking(c0, AddRef(c, ip, -1), e, next)
  {
    AddRefAdds(c, ip, -1, cur);
    forall id ensures Refs(AddRef(c, ip, -1), id) == Refs(c0, id) + if id == next then 1 else 0 { AddRefAdds(c, ip, -1, id); }
  }
}
