/** log.c itself: the in-memory header, updated in place, over the buffered disk. */
module Log {
  import opened BlockStore
  import opened LogRecovery
  import opened GroupCommit

  class Log {
    const layout: Layout
    /** lh.sector[..lh.n] */
    var lh: Head
    var outstanding: int
    var committing: bool
    var sleepers: nat
    var store: Store
    /** Every sector sent to the disk so far: a crash keeps the effect of some prefix. */
    ghost var sent: seq<SectorWrite>

    ghost predicate Valid()
      reads this
    {
      Ready(store, layout, lh)
    }

    ghost function Fields(): Vars
      reads this
    {
      Vars(lh, outstanding, committing, sleepers)
    }

    constructor (layout: Layout, disk: seq<Block>)
      requires LayoutOk(layout, disk) && |disk[layout.start]| == BLOCK_WORDS
      ensures Valid() && this.layout == layout
      ensures store == Store(disk, map[]) && Fields() == Vars([], 0, false, 0) && sent == []
    {
      this.layout := layout;
      lh, outstanding, committing, sleepers := [], 0, false, 0;
      store := Store(disk, map[]);
      sent := [];
    }

    method Bwrite(w: SectorWrite)
      modifies this`store, this`sent
      ensures store == old(store).WriteThrough(w)
      ensures sent == old(sent) + [w]
    {
      store := store.WriteThrough(w);
      sent := sent + [w];
    }

    method WriteLog()
      requires Valid() && PinsExactly(store, lh)
      modifies this`store, this`sent
      ensures Valid()
      ensures store == WriteAll(old(store), LogWrites(old(store), layout, lh))
      ensures sent == old(sent) + LogWrites(old(store), layout, lh)
    {
      hide WriteAll, PinsExactly;
      ghost var st := store;
      ghost var ws := LogWrites(st, layout, lh);
      NoWrite(st, ws);
      var tail := 0;
      while tail < |lh|
        invariant tail <= |lh| && Valid()
        invariant store == WriteAll(st, ws[..tail])
        invariant sent == old(sent) + ws[..tail]
      {
        LogStep(st, layout, lh, tail);
        Bwrite(SectorWrite(layout.start + tail + 1, store.Read(lh[tail])));
        tail := tail + 1;
      }
      assert ws[..tail] == ws;
    }

    method WriteHead()
      requires Valid()
      modifies this`store, this`sent
      ensures Valid()
      ensures store == old(store).WriteThrough(HeadWrite(old(store), layout, lh))
      ensures sent == old(sent) + [HeadWrite(old(store), layout, lh)]
    {
      var hb := store.Read(layout.start);
      ghost var was := hb;
      hb := hb[0 := |lh|];
      for i := 0 to |lh|
        invariant |hb| == BLOCK_WORDS && hb[0] == |lh|
        invariant hb[1..1 + i] == lh[..i]
        invariant hb[1 + i..] == was[1 + i..]
      {
        hb := hb[1 + i := lh[i]];
      }
      assert lh[..|lh|] == lh;
      assert hb == HeadBlock(was, lh);
      Bwrite(SectorWrite(layout.start, hb));
    }

    method ReadHead()
      requires Valid() && DiskHeadOk(store.disk, layout) && layout.start !in store.pinned
      modifies this`lh
      ensures Valid() && lh == DiskHead(store.disk, layout)
    {
      var head := store.Read(layout.start);
      lh := [];
      for i := 0 to head[0]
        invariant lh == DiskHead(store.disk, layout)[..i]
      {
        lh := lh + [head[1 + i]];
      }
    }

    method InstallTrans()
      requires Valid() && forall s :: s in store.pinned ==> s < layout.start
      modifies this`store, this`sent
      ensures Valid()
      ensures store == WriteAll(old(store), InstallWrites(old(store.disk), layout, lh))
      ensures sent == old(sent) + InstallWrites(old(store.disk), layout, lh)
    {
      hide WriteAll;
      ghost var st := store;
      ghost var ws := InstallWrites(st.disk, layout, lh);
      NoWrite(st, ws);
      var tail := 0;
      while tail < |lh|
        invariant tail <= |lh| && Valid()
        invariant store == WriteAll(st, ws[..tail])
        invariant sent == old(sent) + ws[..tail]
      {
        InstallStep(st, layout, lh, tail);
        Bwrite(SectorWrite(lh[tail], store.Read(layout.start + tail + 1)));
        tail := tail + 1;
      }
      assert ws[..tail] == ws;
    }

    /** Boot.  Stopped after any number of its writes and run again, it reaches the same disk. */
    method RecoverFromLog()
      requires Valid() && DiskHeadOk(store.disk, layout) && store.pinned == map[]
      modifies this`lh, this`store, this`sent
      ensures Valid() && lh == []
      ensures sent == old(sent) + RecoveryWrites(old(store.disk), layout)
      ensures store == Store(Recover(old(store.disk), layout), map[])
      ensures forall j :: 0 <= j <= |RecoveryWrites(old(store.disk), layout)| ==>
        var c := Apply(old(store.disk), RecoveryWrites(old(store.disk), layout)[..j]);
        DiskHeadOk(c, layout) && Recover(c, layout) == store.disk
    {
      ghost var st := store;
      ReadHead();
      ghost var secs := lh;
      ghost var ws := InstallWrites(st.disk, layout, secs);
      InstallTrans();
      WriteAllSplits(st, ws);
      InstallTouchesOnlyHome(st.disk, layout, secs, |secs|, layout.start);
      assert ws[..|secs|] == ws;
      lh := [];
      WriteHead();
      assert RecoveryWrites(st.disk, layout)[..|secs|] == ws;
      SameFromAnywhere(st.disk, layout);
    }

    /** Stopped after any number of its writes, recovery yields the old home sectors or the new
        ones, the new ones exactly if the header had been written.
     */
    method Commit()
      requires Valid() && Uncommitted(store, layout, lh)
      modifies this`lh, this`store, this`sent
      ensures Valid() && lh == []
      ensures sent == old(sent) + CommitWrites(old(store), layout, old(lh))
      ensures store == WriteAll(old(store), CommitWrites(old(store), layout, old(lh)))
      ensures Uncommitted(store, layout, [])
      ensures store.disk[..layout.start] == old(store).View()[..layout.start]
      ensures AtomicAtEveryWrite(old(store), layout, old(lh))
    {
      hide WriteAll, CommitWrites, HomeWrites, InstallWrites, LogWrites, HeadBlock, AtomicAtEveryWrite;
      ghost var st := store;
      ghost var secs := lh;
      if |lh| > 0 {
        WriteLog();
        ghost var logged := store;
        WriteHead();
        ghost var committed := store;
        LogStage(st, layout, secs, logged, committed);
        InstallTrans();
        ghost var installed := store;
        lh := [];
        WriteHead();
        CommitInStages(st, layout, secs, logged, committed, installed);
      } else {
        NoWrite(st, []);
      }
      CommitOutcome(st, layout, secs);
    }

    /** One pass of the loop of begin_op; false means asleep. */
    method BeginOpPass() returns (entered: bool)
      requires Valid()
      modifies this`outstanding, this`sleepers
      ensures Valid() && Fields() == BeginOp(old(Fields()))
      ensures entered <==> !Blocked(old(Fields()))
    {
      if committing {
        sleepers := sleepers + 1;
        entered := false;
      } else if |lh| + (outstanding + 1) * MAXOPBLOCKS > LOGSIZE {
        sleepers := sleepers + 1;
        entered := false;
      } else {
        outstanding := outstanding + 1;
        entered := true;
      }
    }

    /** end_op, with commit run to its end. */
    method EndOpAll() returns (panic: bool)
      requires Valid() && Uncommitted(store, layout, lh)
      modifies this`lh, this`store, this`sent, this`outstanding, this`committing, this`sleepers
      ensures panic <==> EndOp(old(Fields())) == EndPanic
      ensures !panic ==> Valid() && match EndOp(old(Fields()))
        case Woke(v) => Fields() == v && store == old(store) && sent == old(sent)
        case MustCommit(v) =>
          && Fields() == CommitDone(v)
          && sent == old(sent) + CommitWrites(old(store), layout, v.secs)
          && store == WriteAll(old(store), CommitWrites(old(store), layout, v.secs))
    {
      var doCommit := false;
      outstanding := outstanding - 1;
      if committing {
        return true;
      }
      if outstanding == 0 {
        doCommit := true;
        committing := true;
      } else {
        sleepers := 0;
      }
      if doCommit {
        Commit();
        committing := false;
        sleepers := 0;
      }
      panic := false;
    }

    method LogWrite(s: nat, data: Block) returns (panic: bool)
      requires Valid() && s < layout.start
      modifies this`lh, this`store
      ensures Valid()
      ensures panic <==> TooBig(old(Fields()), layout) || old(outstanding) < 1
      ensures panic ==> Fields() == old(Fields()) && store == old(store)
      ensures !panic ==> Fields() == old(Fields()).(secs := Absorb(old(lh), s))
                         && store == old(store).Pin(SectorWrite(s, data))
    {
      if |lh| >= LOGSIZE || |lh| >= layout.size - 1 {
        return true;
      }
      if outstanding < 1 {
        return true;
      }
      var i := 0;
      while i < |lh| && lh[i] != s
        invariant i <= |lh|
        invariant s !in lh[..i]
      {
        i := i + 1;
      }
      lh := if i == |lh| then lh + [s] else lh[i := s];
      store := store.Pin(SectorWrite(s, data));
      panic := false;
    }
  }

  ghost predicate Ready(st: Store, l: Layout, secs: Head)
  {
    LayoutOk(l, st.disk) && HeadFits(l, secs) && |st.Read(l.start)| == BLOCK_WORDS
  }

  function HeadWrite(st: Store, l: Layout, secs: Head): SectorWrite
    requires HeadFits(l, secs) && l.start < |st.disk| && |st.Read(l.start)| == BLOCK_WORDS
  {
    SectorWrite(l.start, HeadBlock(st.Read(l.start), secs))
  }

  lemma LoggingKeeps(st: Store, l: Layout, secs: Head, j: nat, s: nat)
    requires Ready(st, l, secs) && PinsExactly(st, secs)
    requires j <= |secs| && s <= l.start
    ensures WriteAll(st, LogWrites(st, l, secs)[..j]).Read(s) == st.Read(s)
  {
    var ws := LogWrites(st, l, secs)[..j];
    WriteAllSplits(st, ws);
    ApplyFrame(st.disk, ws, s);
    assert forall k :: 0 <= k < |ws| ==> ws[k].sector != s;
  }

  /** Blocks already logged are in log sectors, so the next one is still as it was. */
  lemma LogStep(st: Store, l: Layout, secs: Head, j: nat)
    requires Ready(st, l, secs) && PinsExactly(st, secs)
    requires j < |secs|
    ensures var ws := LogWrites(st, l, secs);
      var now := WriteAll(st, ws[..j]);
      && ws[j] == SectorWrite(l.start + j + 1, now.Read(secs[j]))
      && now.WriteThrough(ws[j]) == WriteAll(st, ws[..j + 1])
      && ws[..j + 1] == ws[..j] + [ws[j]]
      && Ready(WriteAll(st, ws[..j + 1]), l, secs)
  {
    hide WriteAll, Apply;
    var ws := LogWrites(st, l, secs);
    LoggingKeeps(st, l, secs, j, secs[j]);
    LoggingKeeps(st, l, secs, j + 1, l.start);
    NextWrite(st, ws, j);
  }

  /** Installing changes home sectors only, so the next log block is still as it was. */
  lemma InstallStep(st: Store, l: Layout, secs: Head, j: nat)
    requires Ready(st, l, secs) && (forall s :: s in st.pinned ==> s < l.start)
    requires j < |secs|
    ensures var ws := InstallWrites(st.disk, l, secs);
      var now := WriteAll(st, ws[..j]);
      && ws[j] == SectorWrite(secs[j], now.Read(l.start + j + 1))
      && now.WriteThrough(ws[j]) == WriteAll(st, ws[..j + 1])
      && ws[..j + 1] == ws[..j] + [ws[j]]
      && Ready(WriteAll(st, ws[..j + 1]), l, secs)
  {
    var ws := InstallWrites(st.disk, l, secs);
    WriteAllSplits(st, ws[..j]);
    InstallTouchesOnlyHome(st.disk, l, secs, j, l.start + j + 1);
    NextWrite(st, ws, j);
    WriteAllSplits(st, ws[..j + 1]);
    InstallTouchesOnlyHome(st.disk, l, secs, j + 1, l.start);
  }

  lemma {:induction false} WriteAllConcat(st: Store, a: seq<SectorWrite>, b: seq<SectorWrite>)
    ensures WriteAll(st, a + b) == WriteAll(WriteAll(st, a), b)
  {
    if b == [] {
      assert a + b == a;
    } else {
      WriteAllConcat(st, a, b[..|b| - 1]);
      assert (a + b)[..|a + b| - 1] == a + b[..|b| - 1];
    }
  }

  lemma AfterLog(st: Store, l: Layout, secs: Head)
    requires Uncommitted(st, l, secs) && secs != []
    ensures var a := WriteAll(st, LogWrites(st, l, secs));
      && |a.disk| == |st.disk|
      && a.Read(l.start) == st.disk[l.start]
  {
    var log := LogWrites(st, l, secs);
    WriteAllSplits(st, log);
    ApplyFrame(st.disk, log, l.start);
  }

  /** Up to the header write: then each log block holds what its home sector is to become. */
  lemma LogStage(st: Store, l: Layout, secs: Head, a: Store, b: Store)
    requires Uncommitted(st, l, secs) && secs != []
    requires a == WriteAll(st, LogWrites(st, l, secs)) && |a.Read(l.start)| == BLOCK_WORDS
    requires b == a.WriteThrough(HeadWrite(a, l, secs))
    ensures |b.disk| == |st.disk|
    ensures InstallWrites(b.disk, l, secs) == HomeWrites(st, l, secs)
    ensures forall s :: s in b.pinned ==> s < l.start
  {
    AfterLog(st, l, secs);
    var log := LogWrites(st, l, secs);
    var ws := log + [HeadWrite(a, l, secs)];
    assert ws[..|log|] == log;
    assert CommitWrites(st, l, secs)[..|secs| + 1] == ws;
    DuringInstall(st, l, secs, |secs| + 1);
    WriteAllSplits(st, ws);
    CommittedInstalls(b.disk, st, l, secs);
  }

  lemma CommittedInstalls(c: seq<Block>, st: Store, l: Layout, secs: Head)
    requires Uncommitted(st, l, secs) && Committed(c, st, l, secs)
    ensures InstallWrites(c, l, secs) == HomeWrites(st, l, secs)
  {
  }

  lemma CommitOutcome(st: Store, l: Layout, secs: Head)
    requires Uncommitted(st, l, secs)
    ensures AtomicAtEveryWrite(st, l, secs)
    ensures var r := WriteAll(st, CommitWrites(st, l, secs));
      Uncommitted(r, l, []) && r.disk[..l.start] == st.View()[..l.start]
  {
    AfterCommit(st, l, secs);
    CommitIsAtomicEverywhere(st, l, secs);
  }

  /** write_log, write_head, install_trans and write_head again make up CommitWrites. */
  lemma CommitInStages(st: Store, l: Layout, secs: Head, a: Store, b: Store, c: Store)
    requires Uncommitted(st, l, secs) && secs != []
    requires a == WriteAll(st, LogWrites(st, l, secs)) && |a.Read(l.start)| == BLOCK_WORDS
    requires b == a.WriteThrough(HeadWrite(a, l, secs))
    requires c == WriteAll(b, HomeWrites(st, l, secs)) && |c.Read(l.start)| == BLOCK_WORDS
    ensures c.WriteThrough(HeadWrite(c, l, [])) == WriteAll(st, CommitWrites(st, l, secs))
    ensures CommitWrites(st, l, secs)
         == LogWrites(st, l, secs) + [HeadWrite(a, l, secs)] + HomeWrites(st, l, secs) + [HeadWrite(c, l, [])]
  {
    hide Apply, HeadBlock, PinsExactly, LogWrites;
    AfterLog(st, l, secs);
    var log, home := LogWrites(st, l, secs), HomeWrites(st, l, secs);
    var head := HeadWrite(a, l, secs);
    assert (log + [head])[..|log|] == log;
    WriteAllSplits(b, home);
    ApplyFrame(b.disk, home, l.start);
    assert c.Read(l.start) == head.data;
    WriteAllConcat(st, log + [head], home);
    var clear := HeadWrite(c, l, []);
    var ws := log + [head] + home + [clear];
    assert ws[..|ws| - 1] == log + [head] + home;
    assert ws == log + [head] + (home + [clear]);
  }

  /** Recovery stopped after any number of its writes, and run again. */
  lemma SameFromAnywhere(d: seq<Block>, l: Layout)
    requires DiskHeadOk(d, l)
    ensures forall j :: 0 <= j <= |RecoveryWrites(d, l)| ==>
      var c := Apply(d, RecoveryWrites(d, l)[..j]); DiskHeadOk(c, l) && Recover(c, l) == Recover(d, l)
  {
    hide Recover, Apply, RecoveryWrites, DiskHeadOk;
    forall j | 0 <= j <= |RecoveryWrites(d, l)|
      ensures var c := Apply(d, RecoveryWrites(d, l)[..j]); DiskHeadOk(c, l) && Recover(c, l) == Recover(d, l)
    {
      CrashInRecovery(d, l, j);
    }
  }
}
