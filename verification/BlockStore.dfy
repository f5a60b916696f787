/** Disk sectors and what the kernel sees of them through its buffers.
    A sector is a block of 128 32-bit words.  `Store` separates what is on the disk
    from the dirty blocks that the log keeps pinned in the buffer cache.
 */
module BlockStore {

  const BLOCK_WORDS := 128

  type Block = seq<int>

  datatype SectorWrite = SectorWrite(sector: nat, data: Block)

  /** `disk` survives a crash, `pinned` (the B_DIRTY buffers) does not. */
  datatype Store = Store(disk: seq<Block>, pinned: map<nat, Block>) {

    /** What bread returns. */
    function Read(s: nat): Block
      requires s < |disk|
    {
      if s in pinned then pinned[s] else disk[s]
    }

    /** bwrite: the buffer goes to the disk and is clean afterwards. */
    function WriteThrough(w: SectorWrite): Store
    {
      Store(Put(disk, w), pinned - {w.sector})
    }

    /** log_write: the change stays in the cache. */
    function Pin(w: SectorWrite): Store
    {
      Store(disk, pinned[w.sector := w.data])
    }

    /** The plain disk that readers of the cache believe in. */
    function View(): (v: seq<Block>)
      ensures |v| == |disk|
      ensures forall s :: 0 <= s < |disk| ==> v[s] == Read(s)
    {
      seq(|disk|, s requires 0 <= s < |disk| => Read(s))
    }
  }

  function Put(d: seq<Block>, w: SectorWrite): (r: seq<Block>)
    ensures |r| == |d|
  {
    if w.sector < |d| then d[w.sector := w.data] else d
  }

  /** The disk after a sequence of sector writes. */
  function Apply(d: seq<Block>, ws: seq<SectorWrite>): (r: seq<Block>)
    ensures |r| == |d|
  {
    if ws == [] then d else Put(Apply(d, ws[..|ws| - 1]), ws[|ws| - 1])
  }

  /** The store after a sequence of bwrites. */
  function WriteAll(st: Store, ws: seq<SectorWrite>): (r: Store)
    ensures |r.disk| == |st.disk|
  {
    if ws == [] then st else WriteAll(st, ws[..|ws| - 1]).WriteThrough(ws[|ws| - 1])
  }

  predicate Touches(ws: seq<SectorWrite>, s: nat)
  {
    exists k :: 0 <= k < |ws| && ws[k].sector == s
  }

  lemma {:induction false} ApplyConcat(d: seq<Block>, a: seq<SectorWrite>, b: seq<SectorWrite>)
    ensures Apply(d, a + b) == Apply(Apply(d, a), b)
  {
    if b == [] {
      assert a + b == a;
    } else {
      ApplyConcat(d, a, b[..|b| - 1]);
      assert (a + b)[..|a + b| - 1] == a + b[..|b| - 1];
    }
  }

  /** Two disks that agree on s, or a write list that touches s: the same block results. */
  lemma {:induction false} ApplyAgrees(d1: seq<Block>, d2: seq<Block>, ws: seq<SectorWrite>, s: nat)
    requires |d1| == |d2| && s < |d1|
    requires d1[s] == d2[s] || Touches(ws, s)
    ensures Apply(d1, ws)[s] == Apply(d2, ws)[s]
  {
    if ws != [] && ws[|ws| - 1].sector != s {
      var front := ws[..|ws| - 1];
      if Touches(ws, s) {
        var k :| 0 <= k < |ws| && ws[k].sector == s;
        assert front[k].sector == s;
      }
      ApplyAgrees(d1, d2, front, s);
    }
  }

  lemma {:induction false} ApplyFrame(d: seq<Block>, ws: seq<SectorWrite>, s: nat)
    requires s < |d|
    requires !Touches(ws, s)
    ensures Apply(d, ws)[s] == d[s]
  {
    if ws != [] {
      var front := ws[..|ws| - 1];
      assert ws[|ws| - 1].sector != s;
      assert forall k :: 0 <= k < |front| ==> front[k] == ws[k];
      ApplyFrame(d, front, s);
    }
  }

  /** If every write to s carries v, and there is one, s ends up as v. */
  lemma {:induction false} ApplyValue(d: seq<Block>, ws: seq<SectorWrite>, s: nat, v: Block)
    requires s < |d|
    requires Touches(ws, s)
    requires forall k :: 0 <= k < |ws| && ws[k].sector == s ==> ws[k].data == v
    ensures Apply(d, ws)[s] == v
  {
    if ws[|ws| - 1].sector != s {
      var k :| 0 <= k < |ws| && ws[k].sector == s;
      assert ws[..|ws| - 1][k].sector == s;
      ApplyValue(d, ws[..|ws| - 1], s, v);
    }
  }

  lemma NoWrite(st: Store, ws: seq<SectorWrite>)
    ensures WriteAll(st, ws[..0]) == st
  {
  }

  lemma NextWrite(st: Store, ws: seq<SectorWrite>, k: nat)
    requires k < |ws|
    ensures WriteAll(st, ws[..k + 1]) == WriteAll(st, ws[..k]).WriteThrough(ws[k])
  {
    assert ws[..k + 1][..k] == ws[..k];
  }

  lemma {:induction false} WriteAllSplits(st: Store, ws: seq<SectorWrite>)
    ensures WriteAll(st, ws).disk == Apply(st.disk, ws)
    ensures WriteAll(st, ws).pinned.Keys == st.pinned.Keys - set k | 0 <= k < |ws| :: ws[k].sector
    ensures forall s :: s in WriteAll(st, ws).pinned ==> WriteAll(st, ws).pinned[s] == st.pinned[s]
  {
    if ws != [] {
      var front := ws[..|ws| - 1];
      WriteAllSplits(st, front);
      assert (set k | 0 <= k < |ws| :: ws[k].sector)
          == (set k | 0 <= k < |front| :: front[k].sector) + {ws[|ws| - 1].sector};
    }
  }
}
