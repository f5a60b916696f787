/** The redo log of log.c as the sector writes it makes: what commit and recovery write,
    in which order, and what a crash between any two of those writes leaves behind.
 */
module LogRecovery {
  import opened BlockStore

  const MAXOPBLOCKS := 10
  const LOGSIZE := MAXOPBLOCKS * 3

  /** The log occupies sectors start .. start + size - 1; the first is the header.
      Everything below `start` is a home sector.
   */
  datatype Layout = Layout(start: nat, size: nat)

  /** In-memory header: lh.n is the length of the sequence. */
  type Head = seq<nat>

  ghost predicate HeadFits(l: Layout, secs: Head)
  {
    && |secs| <= LOGSIZE
    && |secs| < l.size
    && forall k :: 0 <= k < |secs| ==> secs[k] < l.start
  }

  /** write_head overlays n and n sector numbers on the old header block. */
  function HeadBlock(prior: Block, secs: Head): (b: Block)
    requires |secs| <= LOGSIZE && |prior| == BLOCK_WORDS
    ensures |b| == BLOCK_WORDS
  {
    [|secs|] + secs + prior[1 + |secs|..]
  }

  /** The on-disk header, if it can be one that write_head produced. */
  ghost predicate DiskHeadOk(d: seq<Block>, l: Layout)
  {
    && l.start + l.size <= |d|
    && 0 < l.size
    && var h := d[l.start];
    && |h| == BLOCK_WORDS
    && 0 <= h[0] <= LOGSIZE
    && h[0] < l.size
    && forall k :: 1 <= k <= h[0] ==> 0 <= h[k] < l.start
  }

  /** read_head */
  function DiskHead(d: seq<Block>, l: Layout): (secs: Head)
    requires DiskHeadOk(d, l)
    ensures HeadFits(l, secs)
    ensures |secs| == d[l.start][0]
  {
    seq(d[l.start][0], k requires 0 <= k < d[l.start][0] => d[l.start][1 + k])
  }

  lemma HeadRoundTrip(d: seq<Block>, l: Layout, prior: Block, secs: Head)
    requires HeadFits(l, secs) && l.start + l.size <= |d| && |prior| == BLOCK_WORDS
    requires d[l.start] == HeadBlock(prior, secs)
    ensures DiskHeadOk(d, l) && DiskHead(d, l) == secs
  {
    var h := d[l.start];
    assert forall k :: 0 <= k < |secs| ==> h[1 + k] == secs[k];
    assert forall k :: 1 <= k <= h[0] ==> h[k] == secs[k - 1];
  }

  // ---- What is written, in order

  function LogWrites(st: Store, l: Layout, secs: Head): (ws: seq<SectorWrite>)
    requires HeadFits(l, secs) && l.start + l.size <= |st.disk|
    ensures |ws| == |secs|
  {
    seq(|secs|, k requires 0 <= k < |secs| => SectorWrite(l.start + 1 + k, st.Read(secs[k])))
  }

  /** The same blocks again, to where they belong. */
  function HomeWrites(st: Store, l: Layout, secs: Head): (ws: seq<SectorWrite>)
    requires HeadFits(l, secs) && l.start + l.size <= |st.disk|
    ensures |ws| == |secs|
  {
    seq(|secs|, k requires 0 <= k < |secs| => SectorWrite(secs[k], st.Read(secs[k])))
  }

  /** All the sector writes of commit(). */
  function CommitWrites(st: Store, l: Layout, secs: Head): (ws: seq<SectorWrite>)
    requires HeadFits(l, secs) && DiskHeadOk(st.disk, l)
    ensures secs == [] ==> ws == []
    ensures secs != [] ==> |ws| == 2 * |secs| + 2
  {
    if secs == [] then [] else
      var head := HeadBlock(st.disk[l.start], secs);
      LogWrites(st, l, secs) + [SectorWrite(l.start, head)]
      + (HomeWrites(st, l, secs) + [SectorWrite(l.start, HeadBlock(head, []))])
  }

  /** install_trans copies log blocks home. */
  function InstallWrites(d: seq<Block>, l: Layout, secs: Head): (ws: seq<SectorWrite>)
    requires HeadFits(l, secs) && l.start + l.size <= |d|
    ensures |ws| == |secs|
  {
    seq(|secs|, k requires 0 <= k < |secs| => SectorWrite(secs[k], d[l.start + 1 + k]))
  }

  /** All the sector writes of recover_from_log(). */
  function RecoveryWrites(d: seq<Block>, l: Layout): (ws: seq<SectorWrite>)
    requires DiskHeadOk(d, l)
    ensures |ws| == |DiskHead(d, l)| + 1
  {
    InstallWrites(d, l, DiskHead(d, l)) + [SectorWrite(l.start, HeadBlock(d[l.start], []))]
  }

  /** The disk after a recovery that runs to its end. */
  function Recover(d: seq<Block>, l: Layout): (r: seq<Block>)
    requires DiskHeadOk(d, l)
    ensures |r| == |d|
  {
    Apply(d, RecoveryWrites(d, l))
  }

  // ---- Recovery

  lemma InstallTouchesOnlyHome(d: seq<Block>, l: Layout, secs: Head, j: nat, s: nat)
    requires HeadFits(l, secs) && l.start + l.size <= |d|
    requires j <= |secs| && l.start <= s < |d|
    ensures Apply(d, InstallWrites(d, l, secs)[..j])[s] == d[s]
  {
    ApplyFrame(d, InstallWrites(d, l, secs)[..j], s);
  }

  lemma RecoverClears(d: seq<Block>, l: Layout)
    requires DiskHeadOk(d, l)
    ensures DiskHeadOk(Recover(d, l), l) && DiskHead(Recover(d, l), l) == []
    ensures Recover(d, l)[l.start] == HeadBlock(d[l.start], [])
  {
    HeadRoundTrip(Recover(d, l), l, d[l.start], []);
  }

  lemma RecoverIdempotent(d: seq<Block>, l: Layout)
    requires DiskHeadOk(d, l)
    ensures DiskHeadOk(Recover(d, l), l) && Recover(Recover(d, l), l) == Recover(d, l)
  {
    RecoverClears(d, l);
    var r := Recover(d, l);
    var w := SectorWrite(l.start, HeadBlock(r[l.start], []));
    assert RecoveryWrites(r, l) == [w];
    assert Apply(r, [w]) == Put(Apply(r, []), w);
    assert HeadBlock(r[l.start], []) == r[l.start];
    assert Put(r, w) == r;
  }

  /** A crash after any j sector writes of a recovery costs nothing: the next one
      reaches the very same disk.
   */
  lemma CrashInRecovery(d: seq<Block>, l: Layout, j: nat)
    requires DiskHeadOk(d, l)
    requires j <= |RecoveryWrites(d, l)|
    ensures DiskHeadOk(Apply(d, RecoveryWrites(d, l)[..j]), l)
    ensures Recover(Apply(d, RecoveryWrites(d, l)[..j]), l) == Recover(d, l)
  {
    var secs := DiskHead(d, l);
    var ws := RecoveryWrites(d, l);
    if j == |ws| {
      assert ws[..j] == ws;
      RecoverIdempotent(d, l);
    } else {
      var c := Apply(d, ws[..j]);
      assert ws[..j] == InstallWrites(d, l, secs)[..j];
      forall s | l.start <= s < |d| ensures c[s] == d[s] {
        InstallTouchesOnlyHome(d, l, secs, j, s);
      }
      assert DiskHeadOk(c, l) && DiskHead(c, l) == secs;
      assert RecoveryWrites(c, l) == ws;
      forall s | 0 <= s < |d| ensures Apply(c, ws)[s] == Apply(d, ws)[s] {
        if Touches(ws[..j], s) {
          var k :| 0 <= k < |ws[..j]| && ws[..j][k].sector == s;
          assert ws[k].sector == s;
        } else {
          ApplyFrame(d, ws[..j], s);
        }
        ApplyAgrees(c, d, ws, s);
      }
    }
  }

  /** The disk after a series of crashes, the i-th after js[i] sector writes of the recovery
      from the one before it.
   */
  function AfterCrashes(d: seq<Block>, l: Layout, js: seq<nat>): (c: seq<Block>)
    requires DiskHeadOk(d, l)
    ensures DiskHeadOk(c, l)
  {
    if js == [] then d else
      var before := AfterCrashes(d, l, js[..|js| - 1]);
      var ws := RecoveryWrites(before, l);
      var j := if js[|js| - 1] <= |ws| then js[|js| - 1] else |ws|;
      CrashInRecovery(before, l, j);
      Apply(before, ws[..j])
  }

  /** Any number of crashes inside recovery, then one that finishes. */
  lemma {:induction false} RepeatedCrashes(d: seq<Block>, l: Layout, js: seq<nat>)
    requires DiskHeadOk(d, l)
    ensures Recover(AfterCrashes(d, l, js), l) == Recover(d, l)
  {
    if js != [] {
      RepeatedCrashes(d, l, js[..|js| - 1]);
      var before := AfterCrashes(d, l, js[..|js| - 1]);
      var ws := RecoveryWrites(before, l);
      CrashInRecovery(before, l, if js[|js| - 1] <= |ws| then js[|js| - 1] else |ws|);
    }
  }

  // ---- Commit

  /** The dirty buffers are exactly those of the logged sectors. */
  ghost predicate PinsExactly(st: Store, secs: Head)
  {
    st.pinned.Keys == set s | s in secs
  }

  /** A store between transactions, or with one that has not been committed:
      the disk header is empty and exactly the logged home sectors are pinned.
   */
  ghost predicate Uncommitted(st: Store, l: Layout, secs: Head)
  {
    && HeadFits(l, secs)
    && DiskHeadOk(st.disk, l)
    && st.disk[l.start][0] == 0
    && PinsExactly(st, secs)
  }

  /** Before the header write: home sectors and the empty header are as they were. */
  lemma BeforeHeader(st: Store, l: Layout, secs: Head, j: nat)
    requires Uncommitted(st, l, secs)
    requires j <= |secs|
    ensures var c := Apply(st.disk, LogWrites(st, l, secs)[..j]);
      && c[..l.start + 1] == st.disk[..l.start + 1]
      && (forall k :: 0 <= k < j ==> c[l.start + 1 + k] == st.Read(secs[k]))
  {
    var ws := LogWrites(st, l, secs)[..j];
    var c := Apply(st.disk, ws);
    forall s | 0 <= s <= l.start ensures c[s] == st.disk[s] {
      ApplyFrame(st.disk, ws, s);
    }
    forall k | 0 <= k < j ensures c[l.start + 1 + k] == st.Read(secs[k]) {
      assert ws[k].sector == l.start + 1 + k;
      ApplyValue(st.disk, ws, l.start + 1 + k, st.Read(secs[k]));
    }
  }

  /** A disk whose header names secs and whose log holds their new contents, while each
      home sector is the old or the new one.
   */
  ghost predicate Committed(c: seq<Block>, st: Store, l: Layout, secs: Head)
    requires Uncommitted(st, l, secs)
  {
    && |c| == |st.disk|
    && (exists prior: Block :: |prior| == BLOCK_WORDS && c[l.start] == HeadBlock(prior, secs))
    && (forall k :: 0 <= k < |secs| ==> c[l.start + 1 + k] == st.Read(secs[k]))
    && (forall s :: 0 <= s < l.start && s !in secs ==> c[s] == st.disk[s])
  }

  lemma CommittedWrite(c: seq<Block>, st: Store, l: Layout, secs: Head, k: nat)
    requires Uncommitted(st, l, secs)
    requires Committed(c, st, l, secs)
    requires DiskHeadOk(c, l) && DiskHead(c, l) == secs
    requires k <= |secs|
    ensures var w := RecoveryWrites(c, l)[k];
      if k < |secs| then w == SectorWrite(secs[k], st.Read(secs[k])) else w.sector == l.start
  {
    if k < |secs| {
      assert RecoveryWrites(c, l)[k] == InstallWrites(c, l, secs)[k];
    }
  }

  lemma CommittedSector(c: seq<Block>, st: Store, l: Layout, secs: Head, s: nat)
    requires Uncommitted(st, l, secs)
    requires Committed(c, st, l, secs)
    requires DiskHeadOk(c, l) && DiskHead(c, l) == secs
    requires s < l.start
    ensures Recover(c, l)[s] == st.Read(s)
  {
    var ws := RecoveryWrites(c, l);
    forall k | 0 <= k < |ws| && ws[k].sector == s ensures s in secs && ws[k].data == st.Read(s) {
      CommittedWrite(c, st, l, secs, k);
    }
    if s in secs {
      var k :| 0 <= k < |secs| && secs[k] == s;
      CommittedWrite(c, st, l, secs, k);
      assert Touches(ws, s);
      ApplyValue(c, ws, s, st.Read(s));
    } else {
      ApplyFrame(c, ws, s);
    }
  }

  /** Once the header is out, recovery produces exactly the new home sectors. */
  lemma CommittedRecovers(c: seq<Block>, st: Store, l: Layout, secs: Head)
    requires Uncommitted(st, l, secs)
    requires Committed(c, st, l, secs)
    ensures DiskHeadOk(c, l)
    ensures Recover(c, l)[..l.start] == st.View()[..l.start]
  {
    var prior: Block :| |prior| == BLOCK_WORDS && c[l.start] == HeadBlock(prior, secs);
    HeadRoundTrip(c, l, prior, secs);
    forall s | 0 <= s < l.start ensures Recover(c, l)[s] == st.Read(s) {
      CommittedSector(c, st, l, secs, s);
    }
  }

  /** Crash atomicity of commit: stopped after any j of its sector writes, the recovered home
      sectors are exactly the old ones if the header was not yet written and exactly the new
      ones if it was.
   */
  lemma CommitIsAtomic(st: Store, l: Layout, secs: Head, j: nat)
    requires Uncommitted(st, l, secs)
    requires j <= |CommitWrites(st, l, secs)|
    ensures var c := Apply(st.disk, CommitWrites(st, l, secs)[..j]);
      && DiskHeadOk(c, l)
      && Recover(c, l)[..l.start] == (if j <= |secs| then st.disk else st.View())[..l.start]
  {
    hide Recover, Apply, Committed, CommitWrites, HeadFits, DiskHeadOk, PinsExactly;
    var ws := CommitWrites(st, l, secs);
    var c := Apply(st.disk, ws[..j]);
    if j <= |secs| {
      StoppedEarly(st, l, secs, j);
    } else if j == |ws| {
      assert ws[..j] == ws;
      StoppedLate(st, l, secs);
    } else {
      DuringInstall(st, l, secs, j);
      CommittedRecovers(c, st, l, secs);
    }
  }

  lemma StoppedEarly(st: Store, l: Layout, secs: Head, j: nat)
    requires Uncommitted(st, l, secs) && j <= |secs|
    ensures j <= |CommitWrites(st, l, secs)|
    ensures var c := Apply(st.disk, CommitWrites(st, l, secs)[..j]);
      DiskHeadOk(c, l) && Recover(c, l)[..l.start] == st.disk[..l.start]
  {
    hide Recover, Apply;
    var ws := CommitWrites(st, l, secs);
    var c := Apply(st.disk, ws[..j]);
    assert ws[..j] == LogWrites(st, l, secs)[..j];
    BeforeHeader(st, l, secs, j);
    assert c[l.start] == st.disk[l.start];
    EmptyHeadRecovers(c, l);
  }

  lemma StoppedLate(st: Store, l: Layout, secs: Head)
    requires Uncommitted(st, l, secs)
    ensures var c := Apply(st.disk, CommitWrites(st, l, secs));
      DiskHeadOk(c, l) && Recover(c, l)[..l.start] == st.View()[..l.start]
  {
    hide Recover, Apply, CommitWrites;
    AfterCommit(st, l, secs);
    EmptyHeadRecovers(Apply(st.disk, CommitWrites(st, l, secs)), l);
  }

  /** Whatever sector write of commit is the last before the crash. */
  ghost predicate AtomicAtEveryWrite(st: Store, l: Layout, secs: Head)
    requires Uncommitted(st, l, secs)
  {
    forall j :: 0 <= j <= |CommitWrites(st, l, secs)| ==>
      var c := Apply(st.disk, CommitWrites(st, l, secs)[..j]);
      && DiskHeadOk(c, l)
      && Recover(c, l)[..l.start] == (if j <= |secs| then st.disk else st.View())[..l.start]
  }

  lemma CommitIsAtomicEverywhere(st: Store, l: Layout, secs: Head)
    requires Uncommitted(st, l, secs)
    ensures AtomicAtEveryWrite(st, l, secs)
  {
    forall j | 0 <= j <= |CommitWrites(st, l, secs)|
      ensures var c := Apply(st.disk, CommitWrites(st, l, secs)[..j]);
        && DiskHeadOk(c, l)
        && Recover(c, l)[..l.start] == (if j <= |secs| then st.disk else st.View())[..l.start]
    {
      CommitIsAtomic(st, l, secs, j);
    }
  }

  lemma EmptyHeadRecovers(c: seq<Block>, l: Layout)
    requires DiskHeadOk(c, l) && c[l.start][0] == 0
    ensures Recover(c, l)[..l.start] == c[..l.start]
  {
    forall s | 0 <= s < l.start ensures Recover(c, l)[s] == c[s] {
      ApplyFrame(c, RecoveryWrites(c, l), s);
    }
  }

  /** From the header write on, a commit touches the header and home sectors of secs only. */
  lemma CommitTail(st: Store, l: Layout, secs: Head, k: nat)
    requires Uncommitted(st, l, secs) && secs != []
    requires |secs| <= k < |CommitWrites(st, l, secs)|
    ensures var w := CommitWrites(st, l, secs)[k];
      && (k == |secs| ==> w == SectorWrite(l.start, HeadBlock(st.disk[l.start], secs)))
      && (|secs| < k <= 2 * |secs| ==> w == SectorWrite(secs[k - |secs| - 1], st.Read(secs[k - |secs| - 1])))
      && (k == 2 * |secs| + 1 ==> w == SectorWrite(l.start, HeadBlock(HeadBlock(st.disk[l.start], secs), [])))
  {
    var home := HomeWrites(st, l, secs);
    if |secs| < k <= 2 * |secs| {
      assert CommitWrites(st, l, secs)[k] == home[k - |secs| - 1];
    }
  }

  lemma DuringInstall(st: Store, l: Layout, secs: Head, j: nat)
    requires Uncommitted(st, l, secs)
    requires |secs| < j < |CommitWrites(st, l, secs)|
    ensures Committed(Apply(st.disk, CommitWrites(st, l, secs)[..j]), st, l, secs)
  {
    hide Apply, Committed, LogWrites, HomeWrites, PinsExactly;
    var ws := CommitWrites(st, l, secs);
    var n := |secs|;
    var log := LogWrites(st, l, secs);
    var logged := Apply(st.disk, log);
    BeforeHeader(st, l, secs, n);
    assert log[..n] == log;
    var tail := ws[n..j];
    assert ws[..j] == log + tail;
    hide CommitWrites;
    ApplyConcat(st.disk, log, tail);
    forall k | 0 <= k < |tail|
      ensures tail[k].sector == if k == 0 then l.start else secs[k - 1]
    {
      CommitTail(st, l, secs, n + k);
    }
    CommitTail(st, l, secs, n);
    TailKeepsLog(st, l, secs, logged, tail);
  }

  lemma TailKeepsLog(st: Store, l: Layout, secs: Head, logged: seq<Block>, tail: seq<SectorWrite>)
    requires Uncommitted(st, l, secs)
    requires |logged| == |st.disk| && logged[..l.start + 1] == st.disk[..l.start + 1]
    requires forall k :: 0 <= k < |secs| ==> logged[l.start + 1 + k] == st.Read(secs[k])
    requires 0 < |tail| <= |secs| + 1 && tail[0].data == HeadBlock(st.disk[l.start], secs)
    requires forall k :: 0 <= k < |tail| ==> tail[k].sector == if k == 0 then l.start else secs[k - 1]
    ensures Committed(Apply(logged, tail), st, l, secs)
  {
    var c := Apply(logged, tail);
    ApplyValue(logged, tail, l.start, HeadBlock(st.disk[l.start], secs));
    forall k | 0 <= k < |secs| ensures c[l.start + 1 + k] == st.Read(secs[k]) {
      ApplyFrame(logged, tail, l.start + 1 + k);
    }
    forall s | 0 <= s < l.start && s !in secs ensures c[s] == st.disk[s] {
      ApplyFrame(logged, tail, s);
      assert logged[s] == logged[..l.start + 1][s] == st.disk[..l.start + 1][s];
    }
  }

  lemma AfterCommitSector(st: Store, l: Layout, secs: Head, s: nat)
    requires Uncommitted(st, l, secs) && s < l.start
    ensures Apply(st.disk, CommitWrites(st, l, secs))[s] == st.Read(s)
  {
    var ws := CommitWrites(st, l, secs);
    var n := |secs|;
    forall k | 0 <= k < |ws| && ws[k].sector == s ensures ws[k].data == st.Read(s) && s in secs {
      if k >= n {
        CommitTail(st, l, secs, k);
      }
    }
    if s in secs {
      var k :| 0 <= k < n && secs[k] == s;
      CommitTail(st, l, secs, n + 1 + k);
      assert ws[n + 1 + k].sector == s;
      ApplyValue(st.disk, ws, s, st.Read(s));
    } else {
      ApplyFrame(st.disk, ws, s);
    }
  }

  /** After all of commit the disk itself holds the new home sectors and an empty header,
      and no buffer is pinned.
   */
  lemma AfterCommit(st: Store, l: Layout, secs: Head)
    requires Uncommitted(st, l, secs)
    ensures var c := Apply(st.disk, CommitWrites(st, l, secs));
      && DiskHeadOk(c, l)
      && c[l.start][0] == 0
      && c[..l.start] == st.View()[..l.start]
      && WriteAll(st, CommitWrites(st, l, secs)) == Store(c, map[])
  {
    var ws := CommitWrites(st, l, secs);
    var c := Apply(st.disk, ws);
    AfterCommitPins(st, l, secs);
    forall s | 0 <= s < l.start ensures c[s] == st.Read(s) {
      AfterCommitSector(st, l, secs, s);
    }
    if secs != [] {
      CommitTail(st, l, secs, 2 * |secs| + 1);
      HeadRoundTrip(c, l, HeadBlock(st.disk[l.start], secs), []);
    }
  }

  lemma AfterCommitPins(st: Store, l: Layout, secs: Head)
    requires Uncommitted(st, l, secs)
    ensures WriteAll(st, CommitWrites(st, l, secs)) == Store(Apply(st.disk, CommitWrites(st, l, secs)), map[])
  {
    var ws := CommitWrites(st, l, secs);
    WriteAllSplits(st, ws);
    forall s | s in st.pinned ensures s in set k | 0 <= k < |ws| :: ws[k].sector {
      var k :| 0 <= k < |secs| && secs[k] == s;
      CommitTail(st, l, secs, |secs| + 1 + k);
    }
  }

  /** Readers of the cache see the new home sectors at every moment of a commit. */
  lemma ViewDuringCommit(st: Store, l: Layout, secs: Head, j: nat, s: nat)
    requires Uncommitted(st, l, secs) && s < l.start
    requires j <= |CommitWrites(st, l, secs)|
    ensures |WriteAll(st, CommitWrites(st, l, secs)[..j]).disk| == |st.disk|
    ensures WriteAll(st, CommitWrites(st, l, secs)[..j]).Read(s) == st.Read(s)
  {
    var ws := CommitWrites(st, l, secs);
    var front := ws[..j];
    WriteAllSplits(st, front);
    forall k | 0 <= k < |front| && front[k].sector == s ensures front[k].data == st.Read(s) {
      if k >= |secs| {
        CommitTail(st, l, secs, k);
      }
    }
    if Touches(front, s) {
      ApplyValue(st.disk, front, s, st.Read(s));
    } else {
      ApplyFrame(st.disk, front, s);
      assert forall k :: 0 <= k < |front| ==> front[k].sector != s;
    }
  }
}
