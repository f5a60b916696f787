/** bio.c and memide.c as a state machine: processes take, fill, change, log, write and release buffers.
    `plain` is the disk that readers are to believe in: a sector of it changes when a buffer is logged or
    written.
 */
module BufferCache {
  import BlockStore

  const NONE := -1
  const DISK := 1

  type Block = seq<int>

  datatype Buf = Buf(dev: int, sector: int, busy: bool, valid: bool, dirty: bool, data: Block)

  /** `order` lists the buffers from the most recently used on. */
  datatype Cache = Cache(bufs: seq<Buf>, order: seq<int>, disk: seq<Block>)

  predicate InCache(c: Cache, b: int)
  {
    0 <= b < |c.bufs|
  }

  predicate Holds(c: Cache, b: int, dev: int, sector: int)
  {
    InCache(c, b) && c.bufs[b].dev == dev && c.bufs[b].sector == sector
  }

  // ---- bget

  /** The place in the list of the first buffer for the sector, from place k on. */
  function FindSector(c: Cache, dev: int, sector: int, k: nat): (r: int)
    requires k <= |c.order|
    ensures r == NONE || (k <= r < |c.order| && Holds(c, c.order[r], dev, sector))
    decreases |c.order| - k
  {
    if k == |c.order| then NONE else if Holds(c, c.order[k], dev, sector) then k else FindSector(c, dev, sector, k + 1)
  }

  predicate Recyclable(c: Cache, b: int)
  {
    InCache(c, b) && !c.bufs[b].busy && !c.bufs[b].dirty
  }

  /** The place of the last buffer before place k that can be recycled. */
  function FindSpare(c: Cache, k: nat): (r: int)
    requires k <= |c.order|
    ensures r == NONE || (0 <= r < k && Recyclable(c, c.order[r]))
  {
    if k == 0 then NONE else if Recyclable(c, c.order[k - 1]) then k - 1 else FindSpare(c, k - 1)
  }

  /** bget returns a buffer, or has to wait for one, or finds none to recycle. */
  datatype Got = Got(c: Cache, b: int) | Wait(b: int) | NoBuffers

  function SetBuf(c: Cache, b: int, buf: Buf): Cache
    requires InCache(c, b)
  {
    c.(bufs := c.bufs[b := buf])
  }

  function Bget(c: Cache, dev: int, sector: int): Got
  {
    var k := FindSector(c, dev, sector, 0);
    if k != NONE then
      var b := c.order[k];
      if c.bufs[b].busy then Wait(b) else Got(SetBuf(c, b, c.bufs[b].(busy := true)), b)
    else
      var j := FindSpare(c, |c.order|);
      if j == NONE then NoBuffers
      else
        var b := c.order[j];
        Got(SetBuf(c, b, Buf(dev, sector, true, false, false, c.bufs[b].data)), b)
  }

  // ---- iderw

  /** The source panics on other requests. */
  predicate CanTransfer(c: Cache, b: int)
  {
    && InCache(c, b) && c.bufs[b].busy && !(c.bufs[b].valid && !c.bufs[b].dirty)
    && c.bufs[b].dev == DISK && 0 <= c.bufs[b].sector < |c.disk|
  }

  function Iderw(c: Cache, b: int): Cache
    requires CanTransfer(c, b)
  {
    var buf := c.bufs[b];
    if buf.dirty then SetBuf(c, b, buf.(dirty := false, valid := true)).(disk := c.disk[buf.sector := buf.data])
    else SetBuf(c, b, buf.(data := c.disk[buf.sector], valid := true))
  }

  // ---- The machine

  /** `changed` holds the buffers whose holder has changed them and neither logged nor written them since. */
  datatype State = State(c: Cache, plain: seq<Block>, changed: set<int>)

  datatype Action =
    | Get(sector: int)
    | Fill(b: int)
    | Change(b: int, data: Block)
    | Log(b: int)
    | Write(b: int)
    | Release(b: int, k: int)

  predicate Held(c: Cache, b: int)
  {
    InCache(c, b) && c.bufs[b].busy
  }

  /** Buffers are filled, changed, logged, written and released by who holds them, and not released changed. */
  predicate Enabled(s: State, a: Action)
  {
    match a
    case Get(sector) => 0 <= sector < |s.c.disk| && Bget(s.c, DISK, sector).Got?
    case Fill(b) => Held(s.c, b) && !s.c.bufs[b].valid
    case Change(b, _) => Held(s.c, b) && s.c.bufs[b].valid
    case Log(b) => Held(s.c, b) && s.c.bufs[b].valid
    case Write(b) => Held(s.c, b) && s.c.bufs[b].valid
    case Release(b, k) =>
      Held(s.c, b) && s.c.bufs[b].valid && b !in s.changed && 0 <= k < |s.c.order| && s.c.order[k] == b
  }

  function Publish(plain: seq<Block>, buf: Buf): seq<Block>
  {
    if 0 <= buf.sector < |plain| then plain[buf.sector := buf.data] else plain
  }

  function ToFront(order: seq<int>, k: int): seq<int>
    requires 0 <= k < |order|
  {
    [order[k]] + order[..k] + order[k + 1..]
  }

  function Step(s: State, a: Action): State
    requires Enabled(s, a)
  {
    match a
    case Get(sector) => s.(c := Bget(s.c, DISK, sector).c)
    case Fill(b) => s.(c := if CanTransfer(s.c, b) then Iderw(s.c, b) else s.c)
    case Change(b, data) => s.(c := SetBuf(s.c, b, s.c.bufs[b].(data := data)), changed := s.changed + {b})
    case Log(b) =>
      State(SetBuf(s.c, b, s.c.bufs[b].(dirty := true)), Publish(s.plain, s.c.bufs[b]), s.changed - {b})
    case Write(b) =>
      var c := SetBuf(s.c, b, s.c.bufs[b].(dirty := true));
      State(if CanTransfer(c, b) then Iderw(c, b) else c, Publish(s.plain, s.c.bufs[b]), s.changed - {b})
    case Release(b, k) =>
      s.(c := SetBuf(s.c, b, s.c.bufs[b].(busy := false)).(order := ToFront(s.c.order, k)))
  }

  // ---- What holds in every state

  /** A buffer in use is for a sector of the disk; if valid and not under change it holds the plain sector. */
  ghost predicate BufAt(s: State, b: int)
  {
    InCache(s.c, b) ==>
      var buf := s.c.bufs[b];
      && (buf.busy || buf.valid || buf.dirty ==> buf.dev == DISK && 0 <= buf.sector < |s.plain|)
      && (buf.dirty ==> buf.valid)
      && (b in s.changed ==> buf.busy && buf.valid)
      && (buf.valid && b !in s.changed ==> 0 <= buf.sector < |s.plain| && buf.data == s.plain[buf.sector])
  }

  /** At most one buffer holds a sector of the disk. */
  ghost predicate UniqueAt(c: Cache, a: int, b: int)
  {
    InCache(c, a) && InCache(c, b) && c.bufs[a].dev == c.bufs[b].dev == DISK ==>
      (c.bufs[a].sector == c.bufs[b].sector ==> a == b)
  }

  ghost predicate DirtyFor(c: Cache, sector: int)
  {
    exists b :: InCache(c, b) && c.bufs[b].dirty && c.bufs[b].sector == sector
  }

  /** A sector without a dirty buffer is up to date on the disk. */
  ghost predicate SectorAt(s: State, sector: int)
  {
    0 <= sector < |s.c.disk| == |s.plain| && !DirtyFor(s.c, sector) ==> s.c.disk[sector] == s.plain[sector]
  }

  /** Every buffer is in the list, once. */
  ghost predicate ListOk(c: Cache)
  {
    && |c.order| == |c.bufs|
    && (forall k :: 0 <= k < |c.order| ==> InCache(c, c.order[k]))
    && (forall j, k :: 0 <= j < k < |c.order| ==> c.order[j] != c.order[k])
    && (forall b :: InCache(c, b) ==> b in c.order)
  }

  ghost predicate Inv(s: State)
  {
    && |s.plain| == |s.c.disk|
    && (forall b {:trigger BufAt(s, b)} :: BufAt(s, b))
    && (forall a, b {:trigger UniqueAt(s.c, a, b)} :: UniqueAt(s.c, a, b))
    && (forall x {:trigger SectorAt(s, x)} :: SectorAt(s, x))
    && ListOk(s.c)
  }

  /** The scan of bget finds the buffer of a sector if there is one. */
  lemma {:induction false} FindsSector(c: Cache, dev: int, sector: int, k: nat, j: int)
    requires k <= j < |c.order| && Holds(c, c.order[j], dev, sector)
    ensures FindSector(c, dev, sector, k) != NONE
    decreases |c.order| - k
  {
    if !Holds(c, c.order[k], dev, sector) { FindsSector(c, dev, sector, k + 1, j); }
  }

  lemma NotCached(c: Cache, sector: int, b: int)
    requires ListOk(c) && FindSector(c, DISK, sector, 0) == NONE
    ensures !Holds(c, b, DISK, sector)
  {
    if Holds(c, b, DISK, sector) {
      var j :| 0 <= j < |c.order| && c.order[j] == b;
      FindsSector(c, DISK, sector, 0, j);
    }
  }

  /** A buffer that changes neither sector nor dirtiness leaves the sectors as they are. */
  lemma DirtySame(c: Cache, c': Cache, sector: int)
    requires |c'.bufs| == |c.bufs|
    requires forall b :: InCache(c, b) ==>
      (c'.bufs[b].dirty && c'.bufs[b].sector == sector <==> c.bufs[b].dirty && c.bufs[b].sector == sector)
    ensures DirtyFor(c', sector) <==> DirtyFor(c, sector)
  {
    if DirtyFor(c, sector) {
      var b :| InCache(c, b) && c.bufs[b].dirty && c.bufs[b].sector == sector;
      assert c'.bufs[b].dirty;
    }
    if DirtyFor(c', sector) {
      var b :| InCache(c', b) && c'.bufs[b].dirty && c'.bufs[b].sector == sector;
      assert c.bufs[b].dirty;
    }
  }

  lemma GetKeeps(s: State, sector: int)
    requires Inv(s) && Enabled(s, Get(sector))
    ensures Inv(Step(s, Get(sector)))
  {
    var s' := Step(s, Get(sector));
    var b := Bget(s.c, DISK, sector).b;
    assert BufAt(s, b);
    if FindSector(s.c, DISK, sector, 0) == NONE {
      forall a ensures !Holds(s.c, a, DISK, sector) { NotCached(s.c, sector, a); }
    }
    forall a ensures BufAt(s', a) { assert BufAt(s, a); }
    forall x, y ensures UniqueAt(s'.c, x, y) {
      assert UniqueAt(s.c, x, y) && !(FindSector(s.c, DISK, sector, 0) == NONE && Holds(s.c, x, DISK, sector));
      assert !(FindSector(s.c, DISK, sector, 0) == NONE && Holds(s.c, y, DISK, sector));
    }
    forall x ensures SectorAt(s', x) { assert SectorAt(s, x); DirtySame(s.c, s'.c, x); }
  }

  lemma FillKeeps(s: State, b: int)
    requires Inv(s) && Enabled(s, Fill(b))
    ensures Inv(Step(s, Fill(b))) && CanTransfer(s.c, b)
  {
    var s' := Step(s, Fill(b));
    assert BufAt(s, b);
    var sector := s.c.bufs[b].sector;
    assert forall a :: InCache(s.c, a) ==> BufAt(s, a) && UniqueAt(s.c, a, b);
    assert !DirtyFor(s.c, sector);
    assert SectorAt(s, sector);
    forall a ensures BufAt(s', a) { assert BufAt(s, a); }
    forall x, y ensures UniqueAt(s'.c, x, y) { assert UniqueAt(s.c, x, y); }
    forall x ensures SectorAt(s', x) { assert SectorAt(s, x); DirtySame(s.c, s'.c, x); }
  }

  lemma ChangeKeeps(s: State, b: int, data: Block)
    requires Inv(s) && Enabled(s, Change(b, data))
    ensures Inv(Step(s, Change(b, data)))
  {
    var s' := Step(s, Change(b, data));
    forall a ensures BufAt(s', a) { assert BufAt(s, a); }
    forall x, y ensures UniqueAt(s'.c, x, y) { assert UniqueAt(s.c, x, y); }
    forall x ensures SectorAt(s', x) { assert SectorAt(s, x); DirtySame(s.c, s'.c, x); }
  }

  lemma LogKeeps(s: State, b: int)
    requires Inv(s) && Enabled(s, Log(b))
    ensures Inv(Step(s, Log(b)))
  {
    var s' := Step(s, Log(b));
    assert BufAt(s, b);
    forall a ensures BufAt(s', a) { assert BufAt(s, a) && UniqueAt(s.c, a, b); }
    forall x, y ensures UniqueAt(s'.c, x, y) { assert UniqueAt(s.c, x, y); }
    forall x ensures SectorAt(s', x) {
      assert SectorAt(s, x);
      if x == s.c.bufs[b].sector {
        assert InCache(s'.c, b) && s'.c.bufs[b].dirty && s'.c.bufs[b].sector == x;
      } else {
        DirtySame(s.c, s'.c, x);
      }
    }
  }

  lemma WriteKeeps(s: State, b: int)
    requires Inv(s) && Enabled(s, Write(b))
    ensures Inv(Step(s, Write(b)))
    ensures CanTransfer(SetBuf(s.c, b, s.c.bufs[b].(dirty := true)), b)
  {
    var s' := Step(s, Write(b));
    assert BufAt(s, b);
    forall a ensures BufAt(s', a) { assert BufAt(s, a) && UniqueAt(s.c, a, b); }
    forall x, y ensures UniqueAt(s'.c, x, y) { assert UniqueAt(s.c, x, y); }
    forall x ensures SectorAt(s', x) {
      assert SectorAt(s, x);
      if x != s.c.bufs[b].sector { DirtySame(s.c, s'.c, x); }
    }
  }

  lemma ReleaseKeeps(s: State, b: int, k: int)
    requires Inv(s) && Enabled(s, Release(b, k))
    ensures Inv(Step(s, Release(b, k)))
  {
    var s' := Step(s, Release(b, k));
    forall a ensures BufAt(s', a) { assert BufAt(s, a); }
    forall x, y ensures UniqueAt(s'.c, x, y) { assert UniqueAt(s.c, x, y); }
    forall x ensures SectorAt(s', x) { assert SectorAt(s, x); DirtySame(s.c, s'.c, x); }
    FrontOk(s.c, k, s'.c);
  }

  /** The place before the move of what is at place j after place k has moved to the front. */
  function Before(k: int, j: int): int
  {
    if j == 0 then k else if j <= k then j - 1 else j
  }

  lemma FrontOk(c: Cache, k: int, c': Cache)
    requires ListOk(c) && 0 <= k < |c.order| && |c'.bufs| == |c.bufs| && c'.order == ToFront(c.order, k)
    ensures ListOk(c')
  {
    forall i, j | 0 <= i < j < |c'.order| ensures c'.order[i] != c'.order[j] {
      assert c'.order[i] == c.order[Before(k, i)] && c'.order[j] == c.order[Before(k, j)];
    }
    forall j | 0 <= j < |c'.order| ensures InCache(c', c'.order[j]) { assert c'.order[j] == c.order[Before(k, j)]; }
    forall b | InCache(c', b) ensures b in c'.order {
      assert InCache(c, b);
      var j :| 0 <= j < |c.order| && c.order[j] == b;
      assert c'.order[if j == k then 0 else if j < k then j + 1 else j] == b;
    }
  }

  lemma StepKeeps(s: State, a: Action)
    requires Inv(s) && Enabled(s, a)
    ensures Inv(Step(s, a))
  {
    match a
    case Get(sector) => GetKeeps(s, sector);
    case Fill(b) => FillKeeps(s, b);
    case Change(b, data) => ChangeKeeps(s, b, data);
    case Log(b) => LogKeeps(s, b);
    case Write(b) => WriteKeeps(s, b);
    case Release(b, k) => ReleaseKeeps(s, b, k);
  }

  // ---- Whole runs

  ghost predicate Runs(s: State, run: seq<Action>)
    decreases |run|
  {
    run == [] || (Enabled(s, run[0]) && Runs(Step(s, run[0]), run[1..]))
  }

  ghost function After(s: State, run: seq<Action>): State
    requires Runs(s, run)
    decreases |run|
  {
    if run == [] then s else After(Step(s, run[0]), run[1..])
  }

  /** What binit leaves: no buffer is for a sector of the disk. */
  ghost predicate Boot(s: State)
  {
    && s.plain == s.c.disk && s.changed == {} && ListOk(s.c)
    && forall b :: InCache(s.c, b) ==>
         s.c.bufs[b].dev == -1 && !s.c.bufs[b].busy && !s.c.bufs[b].valid && !s.c.bufs[b].dirty
  }

  lemma BootOk(s: State)
    requires Boot(s)
    ensures Inv(s)
  {
    forall b ensures BufAt(s, b) { }
    forall a, b ensures UniqueAt(s.c, a, b) { }
    forall x ensures SectorAt(s, x) { }
  }

  /** Over every run: one buffer for each sector, clean sectors up to date on disk, buffers in agreement with
      the plain disk. */
  lemma {:induction false} InvAlways(s: State, run: seq<Action>)
    requires Inv(s) && Runs(s, run)
    ensures Inv(After(s, run))
    decreases |run|
  {
    if run != [] {
      StepKeeps(s, run[0]);
      InvAlways(Step(s, run[0]), run[1..]);
    }
  }

  /** bread: get, and fill if need be. */
  function Bread(s: State, sector: int): State
    requires Enabled(s, Get(sector))
  {
    var s1 := Step(s, Get(sector));
    var b := Bget(s.c, DISK, sector).b;
    if Enabled(s1, Fill(b)) then Step(s1, Fill(b)) else s1
  }

  /** The buffer that bread returns is busy and holds the sector of the plain disk, and no request to the disk
      panics on the way. */
  lemma BreadIsPlain(s: State, sector: int)
    requires Inv(s) && Enabled(s, Get(sector))
    ensures var b := Bget(s.c, DISK, sector).b; var s1 := Step(s, Get(sector)); var s2 := Bread(s, sector);
      && InCache(s1.c, b) && (!s1.c.bufs[b].valid ==> CanTransfer(s1.c, b) && s2.c == Iderw(s1.c, b))
      && (s1.c.bufs[b].valid ==> s2 == s1)
      && Holds(s2.c, b, DISK, sector) && s2.c.bufs[b].busy && s2.c.bufs[b].valid
      && 0 <= sector < |s.plain| && s2.c.bufs[b].data == s.plain[sector]
      && s2.plain == s.plain && s2.c.disk == s.c.disk && Inv(s2)
  {
    var s1 := Step(s, Get(sector));
    var b := Bget(s.c, DISK, sector).b;
    GetKeeps(s, sector);
    assert BufAt(s, b) && BufAt(s1, b);
    if !s1.c.bufs[b].valid {
      FillKeeps(s1, b);
      assert BufAt(Step(s1, Fill(b)), b);
    }
  }

  /** A busy or dirty buffer keeps its sector. */
  lemma NeverRecycled(s: State, a: Action, b: int)
    requires Inv(s) && Enabled(s, a) && InCache(s.c, b) && (s.c.bufs[b].busy || s.c.bufs[b].dirty)
    ensures Holds(Step(s, a).c, b, s.c.bufs[b].dev, s.c.bufs[b].sector)
  {
  }

  // ---- The store that the log is modelled on

  /** The cache over the disk: a sector with a dirty buffer is pinned, with what was last logged for it. */
  ghost function StoreOf(s: State): BlockStore.Store
  {
    BlockStore.Store(s.c.disk, map x: nat | x < |s.plain| && DirtyFor(s.c, x) :: s.plain[x])
  }

  /** What an action means to the store. */
  datatype Effect = Nothing | Pins(w: BlockStore.SectorWrite) | Writes(w: BlockStore.SectorWrite)

  function EffectOf(s: State, a: Action): Effect
  {
    if (a.Log? || a.Write?) && InCache(s.c, a.b) && s.c.bufs[a.b].sector >= 0 then
      var w := BlockStore.SectorWrite(s.c.bufs[a.b].sector, s.c.bufs[a.b].data);
      if a.Log? then Pins(w) else Writes(w)
    else Nothing
  }

  function Affect(st: BlockStore.Store, e: Effect): BlockStore.Store
  {
    match e
    case Nothing => st
    case Pins(w) => st.Pin(w)
    case Writes(w) => st.WriteThrough(w)
  }

  lemma SameStore(s: State, s': State)
    requires s'.plain == s.plain && s'.c.disk == s.c.disk
    requires forall x :: 0 <= x < |s.plain| ==> (DirtyFor(s'.c, x) <==> DirtyFor(s.c, x))
    ensures StoreOf(s') == StoreOf(s)
  {
  }

  lemma QuietStep(s: State, a: Action, x: int)
    requires Inv(s) && Enabled(s, a) && !a.Log? && !a.Write?
    ensures Step(s, a).plain == s.plain && Step(s, a).c.disk == s.c.disk
    ensures DirtyFor(Step(s, a).c, x) <==> DirtyFor(s.c, x)
  {
    var s' := Step(s, a);
    if a.Fill? { assert BufAt(s, a.b); }
    forall b ensures InCache(s'.c, b) && s'.c.bufs[b].dirty && s'.c.bufs[b].sector == x
                 <==> InCache(s.c, b) && s.c.bufs[b].dirty && s.c.bufs[b].sector == x { }
  }

  lemma DirtyAfter(s: State, b: int, dirty: bool, x: int)
    requires Inv(s) && Held(s.c, b)
    ensures DirtyFor(SetBuf(s.c, b, s.c.bufs[b].(dirty := dirty)), x) <==>
      if x == s.c.bufs[b].sector then dirty else DirtyFor(s.c, x)
  {
    var c' := SetBuf(s.c, b, s.c.bufs[b].(dirty := dirty));
    assert BufAt(s, b);
    forall a ensures InCache(s.c, a) && s.c.bufs[a].dirty && s.c.bufs[a].sector == s.c.bufs[b].sector ==> a == b {
      assert BufAt(s, a) && UniqueAt(s.c, a, b);
    }
    if x == s.c.bufs[b].sector && dirty { assert c'.bufs[b].dirty; }
    if a :| x != s.c.bufs[b].sector && InCache(s.c, a) && s.c.bufs[a].dirty && s.c.bufs[a].sector == x {
      assert c'.bufs[a].dirty;
    }
  }

  lemma LogRefines(s: State, b: int)
    requires Inv(s) && Enabled(s, Log(b))
    ensures StoreOf(Step(s, Log(b))) == Affect(StoreOf(s), EffectOf(s, Log(b)))
  {
    var s' := Step(s, Log(b));
    assert BufAt(s, b);
    forall x ensures DirtyFor(s'.c, x) <==> x == s.c.bufs[b].sector || DirtyFor(s.c, x) { DirtyAfter(s, b, true, x); }
  }

  lemma WriteStep(s: State, b: int)
    requires Inv(s) && Enabled(s, Write(b))
    ensures var s' := Step(s, Write(b)); var buf := s.c.bufs[b];
      && 0 <= buf.sector < |s.plain| == |s.c.disk|
      && s'.plain == s.plain[buf.sector := buf.data] && s'.c.disk == s.c.disk[buf.sector := buf.data]
      && s'.c.bufs == SetBuf(s.c, b, buf.(dirty := false)).bufs
  {
    assert BufAt(s, b);
    var c := SetBuf(s.c, b, s.c.bufs[b].(dirty := true));
    assert CanTransfer(c, b);
    assert Iderw(c, b).bufs == SetBuf(s.c, b, s.c.bufs[b].(dirty := false)).bufs;
  }

  lemma WriteRefines(s: State, b: int)
    requires Inv(s) && Enabled(s, Write(b))
    ensures StoreOf(Step(s, Write(b))) == Affect(StoreOf(s), EffectOf(s, Write(b)))
  {
    var s' := Step(s, Write(b));
    WriteStep(s, b);
    hide Step, Inv;
    var c1 := SetBuf(s.c, b, s.c.bufs[b].(dirty := false));
    forall x ensures DirtyFor(s'.c, x) <==> x != s.c.bufs[b].sector && DirtyFor(s.c, x) {
      DirtyAfter(s, b, false, x);
      DirtySame(c1, s'.c, x);
    }
    hide DirtyFor;
  }

  /** Each action is one of the store: log_write pins a sector, bwrite writes it through, and getting, filling,
      changing and releasing a buffer change nothing. */
  lemma StepRefines(s: State, a: Action)
    requires Inv(s) && Enabled(s, a)
    ensures StoreOf(Step(s, a)) == Affect(StoreOf(s), EffectOf(s, a))
  {
    match a
    case Log(b) => LogRefines(s, b);
    case Write(b) => WriteRefines(s, b);
    case _ =>
      forall x ensures DirtyFor(Step(s, a).c, x) <==> DirtyFor(s.c, x) { QuietStep(s, a, x); }
      QuietStep(s, a, 0);
      SameStore(s, Step(s, a));
  }

  /** The log_writes and bwrites of a run, in order. */
  ghost function Trace(s: State, run: seq<Action>): seq<Effect>
    requires Runs(s, run)
    decreases |run|
  {
    if run == [] then [] else [EffectOf(s, run[0])] + Trace(Step(s, run[0]), run[1..])
  }

  function AffectAll(st: BlockStore.Store, es: seq<Effect>): BlockStore.Store
    decreases |es|
  {
    if es == [] then st else AffectAll(Affect(st, es[0]), es[1..])
  }

  /** The store reads as the plain disk at every moment. */
  lemma StoreIsPlain(s: State)
    requires Inv(s)
    ensures StoreOf(s).View() == s.plain
  {
    var st := StoreOf(s);
    forall x: nat | x < |s.plain| ensures st.Read(x) == s.plain[x] { assert SectorAt(s, x); }
  }

  /** From boot, over every run: the cache over the disk is the store after the log_writes and bwrites of the
      run, and the plain disk is what that store reads as. */
  lemma CacheIsStore(s: State, run: seq<Action>)
    requires Boot(s) && Runs(s, run)
    ensures var st := AffectAll(BlockStore.Store(s.c.disk, map[]), Trace(s, run));
      StoreOf(After(s, run)) == st && st.View() == After(s, run).plain
  {
    BootOk(s);
    assert StoreOf(s) == BlockStore.Store(s.c.disk, map[]);
    RunRefines(s, run);
    InvAlways(s, run);
    StoreIsPlain(After(s, run));
  }

  lemma {:induction false} RunRefines(s: State, run: seq<Action>)
    requires Inv(s) && Runs(s, run)
    ensures StoreOf(After(s, run)) == AffectAll(StoreOf(s), Trace(s, run))
    decreases |run|
  {
    if run != [] {
      StepKeeps(s, run[0]);
      StepRefines(s, run[0]);
      hide Step, StoreOf, Affect, EffectOf, Inv, Enabled;
      RunRefines(Step(s, run[0]), run[1..]);
      var rest := Trace(Step(s, run[0]), run[1..]);
      assert ([EffectOf(s, run[0])] + rest)[1..] == rest;
    }
  }

  /** From boot, after every run: bread returns the sector as the run's log_writes and bwrites left it. */
  lemma BreadReadsStore(s: State, run: seq<Action>, sector: int)
    requires Boot(s) && Runs(s, run) && Enabled(After(s, run), Get(sector))
    ensures var s' := After(s, run); var b := Bget(s'.c, DISK, sector).b; var s2 := Bread(s', sector);
      var st := AffectAll(BlockStore.Store(s.c.disk, map[]), Trace(s, run));
      && Holds(s2.c, b, DISK, sector) && s2.c.bufs[b].busy && s2.c.bufs[b].valid
      && 0 <= sector < |st.disk| && s2.c.bufs[b].data == st.Read(sector)
  {
    BootOk(s);
    InvAlways(s, run);
    CacheIsStore(s, run);
    BreadIsPlain(After(s, run), sector);
  }
}
