/** Concurrent file-system calls over the log: every interleaving of begin_op, log_write and
    end_op with the single sector writes of commit and recovery, and a crash anywhere.
 */
module GroupCommit {
  import opened BlockStore
  import opened LogRecovery

  /** The fields of struct log that begin_op, end_op and log_write work on, and the number of
      processes asleep on it.
   */
  datatype Vars = Vars(secs: Head, outstanding: int, committing: bool, sleepers: nat)

  /** begin_op must sleep. */
  predicate Blocked(v: Vars)
  {
    v.committing || |v.secs| + (v.outstanding + 1) * MAXOPBLOCKS > LOGSIZE
  }

  /** One pass of the loop of begin_op. */
  function BeginOp(v: Vars): Vars
  {
    if Blocked(v) then v.(sleepers := v.sleepers + 1) else v.(outstanding := v.outstanding + 1)
  }

  datatype EndResult = EndPanic | Woke(v: Vars) | MustCommit(v: Vars)

  /** end_op up to the call of commit. */
  function EndOp(v: Vars): EndResult
  {
    if v.committing then EndPanic
    else if v.outstanding - 1 == 0 then MustCommit(v.(outstanding := 0, committing := true))
    else Woke(v.(outstanding := v.outstanding - 1, sleepers := 0))
  }

  /** end_op after commit. */
  function CommitDone(v: Vars): Vars
  {
    v.(secs := [], committing := false, sleepers := 0)
  }

  /** Log absorption: a sector already in the header is not entered again. */
  function Absorb(secs: Head, s: nat): Head
  {
    if s in secs then secs else secs + [s]
  }

  /** "too big a transaction" */
  predicate TooBig(v: Vars, l: Layout)
  {
    |v.secs| >= LOGSIZE || |v.secs| >= l.size - 1
  }

  // ---- The machine

  datatype Event = Began(op: nat) | Wrote(op: nat, sector: nat, data: Block) | Ended(op: nat)

  /** `from` is the store (disk) that commit (recovery) started from, `pc` how many of its
      sector writes are done.
   */
  datatype Phase =
    | Idle
    | Committing(from: Store, pc: nat)
    | Recovering(disk: seq<Block>, pc: nat)

  /** `active` maps each operation between begin_op and end_op to the number of its log_write calls.
      `history` lists what operations did; its first `durable` events are committed.
   */
  datatype State = State(
    store: Store, v: Vars, phase: Phase, active: map<nat, nat>, nextOp: nat,
    history: seq<Event>, durable: nat)

  datatype Action =
    | Begin
    | Write(op: nat, sector: nat, data: Block)
    | End(op: nat)
    | SectorOut
    | Finish
    | Crash

  /** Disabled: the action is not one the system can take in this state. */
  datatype Outcome = Next(s: State) | Panic(why: string, at: State) | Disabled

  function Append(s: State, e: Event): State
  {
    s.(history := s.history + [e])
  }

  ghost predicate LayoutOk(l: Layout, d: seq<Block>)
  {
    0 < l.size && l.start + l.size <= |d|
  }

  /** Power on: recovery is about to run. */
  ghost function Boot(d: seq<Block>, nextOp: nat, history: seq<Event>): State
  {
    State(Store(d, map[]), Vars([], 0, false, 0), Recovering(d, 0), map[], nextOp, history, |history|)
  }

  ghost function Step(s: State, l: Layout, a: Action): Outcome
  {
    match a
    case Begin =>
      if s.phase.Recovering? then Disabled
      else if Blocked(s.v) then Next(s.(v := BeginOp(s.v)))
      else
        Next(Append(s.(v := BeginOp(s.v), active := s.active[s.nextOp := 0], nextOp := s.nextOp + 1),
                    Began(s.nextOp)))
    case Write(op, sector, data) =>
      if op !in s.active || sector >= l.start then Disabled
      else if TooBig(s.v, l) then Panic("too big a transaction", s)
      else if s.v.outstanding < 1 then Panic("log_write outside of trans", s)
      else
        Next(Append(s.(store := s.store.Pin(SectorWrite(sector, data)),
                       v := s.v.(secs := Absorb(s.v.secs, sector)),
                       active := s.active[op := s.active[op] + 1]),
                    Wrote(op, sector, data)))
    case End(op) =>
      if op !in s.active then Disabled
      else
        var s' := Append(s.(active := s.active - {op}), Ended(op));
        (match EndOp(s.v)
         case EndPanic => Panic("log.committing", s)
         case Woke(v) => Next(s'.(v := v))
         case MustCommit(v) => Next(s'.(v := v, phase := Committing(s.store, 0))))
    case SectorOut => NextSector(s, l)
    case Finish => FinishPhase(s, l)
    case Crash =>
      if s.durable <= |s.history| then Next(Boot(s.store.disk, s.nextOp, s.history[..s.durable])) else Disabled
  }

  /** The sector writes of the phase the machine is in. */
  ghost function PhaseWrites(s: State, l: Layout): seq<SectorWrite>
  {
    match s.phase
    case Idle => []
    case Committing(from, _) =>
      if HeadFits(l, s.v.secs) && DiskHeadOk(from.disk, l) then CommitWrites(from, l, s.v.secs) else []
    case Recovering(d, _) =>
      if DiskHeadOk(d, l) then RecoveryWrites(d, l) else []
  }

  /** The next sector of commit or recovery reaches the disk.  The header write of commit
      makes everything so far durable.
   */
  ghost function NextSector(s: State, l: Layout): Outcome
  {
    var ws := PhaseWrites(s, l);
    if s.phase.Idle? || s.phase.pc >= |ws| then Disabled
    else
      var s' := s.(store := s.store.WriteThrough(ws[s.phase.pc]), phase := s.phase.(pc := s.phase.pc + 1));
      Next(if s.phase.Committing? && s.phase.pc == |s.v.secs| then s'.(durable := |s.history|) else s')
  }

  ghost function FinishPhase(s: State, l: Layout): Outcome
  {
    if s.phase.Idle? || s.phase.pc != |PhaseWrites(s, l)| then Disabled
    else if s.phase.Committing? then
      Next(s.(v := CommitDone(s.v), phase := Idle, durable := |s.history|))
    else Next(s.(phase := Idle))
  }

  /** A run of the machine. */
  ghost function Exec(s: State, l: Layout, acts: seq<Action>): Outcome
  {
    if acts == [] then Next(s)
    else
      match Exec(s, l, acts[..|acts| - 1])
      case Next(s') => Step(s', l, acts[|acts| - 1])
      case o => o
  }

  // ---- What a state should be

  /** The home sectors after the logged writes of a history, in order. */
  function Replay(home: seq<Block>, h: seq<Event>): (r: seq<Block>)
    ensures |r| == |home|
  {
    if h == [] then home
    else
      var before := Replay(home, h[..|h| - 1]);
      match h[|h| - 1]
      case Wrote(_, sector, data) => if sector < |home| then before[sector := data] else before
      case _ => before
  }

  /** No operation is cut in two at k: each has all its events before k, its end included,
      or none.
   */
  ghost predicate WholeOps(h: seq<Event>, k: nat)
    requires k <= |h|
  {
    && (forall i, j :: 0 <= i < k <= j < |h| ==> h[i].op != h[j].op)
    && (forall i :: 0 <= i < k ==> Ended(h[i].op) in h[..k])
  }

  ghost predicate HistoryOk(s: State)
  {
    && s.durable <= |s.history|
    && WholeOps(s.history, s.durable)
    && (forall i :: 0 <= i < |s.history| ==> s.history[i].op < s.nextOp)
    && (forall i :: 0 <= i < s.durable ==> s.history[i].op !in s.active)
    && (forall i :: 0 <= i < |s.history| ==>
          s.history[i].op in s.active || Ended(s.history[i].op) in s.history)
    && (forall op :: op in s.active ==> op < s.nextOp && Ended(op) !in s.history)
  }

  ghost predicate Distinct(secs: Head)
  {
    forall i, j :: 0 <= i < j < |secs| ==> secs[i] != secs[j]
  }

  ghost predicate VarsOk(s: State, l: Layout)
  {
    && HeadFits(l, s.v.secs)
    && Distinct(s.v.secs)
    && s.v.outstanding == |s.active|
    && (s.v.committing <==> s.phase.Committing?)
    && (s.v.committing || s.phase.Recovering? ==> s.active == map[])
    && (!s.v.committing && s.active == map[] ==> s.v.secs == [])
    && (s.v.sleepers > 0 ==> Blocked(s.v))
  }

  /** home is what the disk held when the machine was first switched on. */
  ghost predicate DiskOk(s: State, l: Layout, home: seq<Block>)
    requires HeadFits(l, s.v.secs) && s.durable <= |s.history|
  {
    && |home| == l.start
    && LayoutOk(l, s.store.disk)
    && match s.phase
       case Idle =>
         && Uncommitted(s.store, l, s.v.secs)
         && s.store.disk[..l.start] == Replay(home, s.history[..s.durable])
         && s.store.View()[..l.start] == Replay(home, s.history)
       case Committing(from, pc) =>
         && Uncommitted(from, l, s.v.secs)
         && pc <= |CommitWrites(from, l, s.v.secs)|
         && s.store == WriteAll(from, CommitWrites(from, l, s.v.secs)[..pc])
         && from.View()[..l.start] == Replay(home, s.history)
         && (if pc <= |s.v.secs| then from.disk else from.View())[..l.start] == Replay(home, s.history[..s.durable])
       case Recovering(d, pc) =>
         && DiskHeadOk(d, l)
         && pc <= |RecoveryWrites(d, l)|
         && s.store == Store(Apply(d, RecoveryWrites(d, l)[..pc]), map[])
         && s.v.secs == []
         && s.durable == |s.history|
         && Recover(d, l)[..l.start] == Replay(home, s.history)
  }

  ghost predicate Inv(s: State, l: Layout, home: seq<Block>)
  {
    HistoryOk(s) && VarsOk(s, l) && DiskOk(s, l, home)
  }

  // ---- Steps keep the invariant

  lemma BootInv(d: seq<Block>, l: Layout)
    requires DiskHeadOk(d, l)
    ensures Inv(Boot(d, 0, []), l, Recover(d, l)[..l.start])
  {
    assert Apply(d, RecoveryWrites(d, l)[..0]) == d;
  }

  lemma ReplayAppend(home: seq<Block>, h: seq<Event>, e: Event)
    ensures Replay(home, h + [e])
      == if e.Wrote? && e.sector < |home| then Replay(home, h)[e.sector := e.data] else Replay(home, h)
  {
    assert (h + [e])[..|h|] == h;
  }

  lemma AppendKeepsHistory(s: State, e: Event, active: map<nat, nat>, nextOp: nat)
    requires HistoryOk(s)
    requires s.nextOp <= nextOp && e.op < nextOp
    requires e.op in s.active || e.op == s.nextOp
    requires active.Keys == if e.Ended? then s.active.Keys - {e.op} else s.active.Keys + {e.op}
    ensures HistoryOk(Append(s.(active := active, nextOp := nextOp), e))
  {
    var h := s.history;
    var h' := h + [e];
    assert h'[..s.durable] == h[..s.durable];
    forall i | 0 <= i < |h'| ensures h'[i].op in active || Ended(h'[i].op) in h' {
      if i < |h| { EventAccounted(s, e, active, i); } else { assert h'[|h|] == e; }
    }
    assert forall op :: op in active ==> op < nextOp && Ended(op) !in h';
  }

  lemma EventAccounted(s: State, e: Event, active: map<nat, nat>, i: nat)
    requires HistoryOk(s) && i < |s.history|
    requires active.Keys == if e.Ended? then s.active.Keys - {e.op} else s.active.Keys + {e.op}
    ensures s.history[i].op in active || Ended(s.history[i].op) in s.history + [e]
  {
    var op := s.history[i].op;
    assert op in s.active || Ended(op) in s.history;
    assert e in s.history + [e];
    assert Ended(op) in s.history ==> Ended(op) in s.history + [e];
    if op in s.active && op !in active { assert e == Ended(op); }
  }

  lemma BeginKeeps(s: State, l: Layout, home: seq<Block>)
    requires Inv(s, l, home)
    requires Step(s, l, Begin).Next?
    ensures Inv(Step(s, l, Begin).s, l, home)
  {
    if !Blocked(s.v) {
      var active := s.active[s.nextOp := 0];
      AppendKeepsHistory(s, Began(s.nextOp), active, s.nextOp + 1);
      assert |active.Keys| == |s.active.Keys + {s.nextOp}| == |s.active| + 1;
      assert s.nextOp in active;
      ReplayAppend(home, s.history, Began(s.nextOp));
      assert (s.history + [Began(s.nextOp)])[..s.durable] == s.history[..s.durable];
    }
  }

  lemma WriteKeepsVars(s: State, l: Layout, home: seq<Block>, op: nat, sector: nat, data: Block)
    requires Inv(s, l, home)
    requires Step(s, l, Write(op, sector, data)).Next?
    ensures VarsOk(Step(s, l, Write(op, sector, data)).s, l)
  {
    var s' := Step(s, l, Write(op, sector, data)).s;
    assert s'.active.Keys == s.active.Keys;
    assert |s.active| == |s.active.Keys| == |s'.active.Keys| == |s'.active|;
    assert op in s'.active && s.phase.Idle?;
  }

  lemma WriteKeepsDisk(s: State, l: Layout, home: seq<Block>, op: nat, sector: nat, data: Block)
    requires Inv(s, l, home)
    requires Step(s, l, Write(op, sector, data)).Next?
    requires VarsOk(Step(s, l, Write(op, sector, data)).s, l)
    ensures DiskOk(Step(s, l, Write(op, sector, data)).s, l, home)
  {
    var s' := Step(s, l, Write(op, sector, data)).s;
    assert op in s.active && s.phase.Idle?;
    ReplayAppend(home, s.history, Wrote(op, sector, data));
    assert s'.history[..s.durable] == s.history[..s.durable];
    assert s'.store.View()[..l.start] == s.store.View()[..l.start][sector := data];
  }

  lemma WriteKeeps(s: State, l: Layout, home: seq<Block>, op: nat, sector: nat, data: Block)
    requires Inv(s, l, home)
    requires Step(s, l, Write(op, sector, data)).Next?
    ensures Inv(Step(s, l, Write(op, sector, data)).s, l, home)
  {
    WriteKeepsVars(s, l, home, op, sector, data);
    WriteKeepsDisk(s, l, home, op, sector, data);
    var active := s.active[op := s.active[op] + 1];
    assert active.Keys == s.active.Keys + {op};
    AppendKeepsHistory(s, Wrote(op, sector, data), active, s.nextOp);
  }

  lemma EndKeepsVars(s: State, l: Layout, home: seq<Block>, op: nat)
    requires Inv(s, l, home)
    requires Step(s, l, End(op)).Next?
    ensures VarsOk(Step(s, l, End(op)).s, l)
  {
    hide HistoryOk, DiskOk, HeadFits, Distinct;
    assert op in s.active && s.phase.Idle?;
    OneLess(s.active, op);
  }

  lemma OneLess(m: map<nat, nat>, op: nat)
    requires op in m
    ensures |m - {op}| == |m| - 1
    ensures m - {op} == map[] <==> |m| == 1
  {
    assert (m - {op}).Keys == m.Keys - {op};
    assert |m - {op}| == |(m - {op}).Keys| == |m.Keys - {op}| == |m| - 1;
  }

  lemma EndKeepsDisk(s: State, l: Layout, home: seq<Block>, op: nat)
    requires Inv(s, l, home)
    requires Step(s, l, End(op)).Next?
    ensures DiskOk(Step(s, l, End(op)).s, l, home)
  {
    var s' := Step(s, l, End(op)).s;
    assert op in s.active && s.phase.Idle?;
    ReplayAppend(home, s.history, Ended(op));
    assert s'.history[..s.durable] == s.history[..s.durable];
    assert CommitWrites(s.store, l, s.v.secs)[..0] == [];
  }

  lemma EndKeeps(s: State, l: Layout, home: seq<Block>, op: nat)
    requires Inv(s, l, home)
    requires Step(s, l, End(op)).Next?
    ensures Inv(Step(s, l, End(op)).s, l, home)
  {
    EndKeepsVars(s, l, home, op);
    EndKeepsDisk(s, l, home, op);
    EndKeepsHistory(s, l, home, op);
    hide HistoryOk, VarsOk, DiskOk, Step;
  }

  lemma EndKeepsHistory(s: State, l: Layout, home: seq<Block>, op: nat)
    requires Inv(s, l, home)
    requires Step(s, l, End(op)).Next?
    ensures HistoryOk(Step(s, l, End(op)).s)
  {
    hide VarsOk, DiskOk;
    AppendKeepsHistory(s, Ended(op), s.active - {op}, s.nextOp);
  }

  /** Nobody is active while the header goes out, so the whole history is whole operations. */
  lemma AllDurable(s: State)
    requires HistoryOk(s) && s.active == map[]
    ensures HistoryOk(s.(durable := |s.history|))
  {
    assert s.history[..|s.history|] == s.history;
  }

  lemma CommitSectorKeepsDisk(s: State, l: Layout, home: seq<Block>)
    requires Inv(s, l, home) && s.phase.Committing?
    requires NextSector(s, l).Next?
    ensures DiskOk(NextSector(s, l).s, l, home)
  {
    hide Uncommitted, Replay, CommitWrites, HistoryOk, WriteAll;
    NextWrite(s.phase.from, CommitWrites(s.phase.from, l, s.v.secs), s.phase.pc);
    assert s.history[..|s.history|] == s.history;
  }

  lemma HistoryBound(s: State)
    requires HistoryOk(s)
    ensures s.durable <= |s.history|
  {
  }

  lemma SectorKeepsHistory(s: State, l: Layout)
    requires HistoryOk(s) && s.active == map[] && NextSector(s, l).Next?
    ensures HistoryOk(NextSector(s, l).s)
  {
    AllDurable(s);
    hide PhaseWrites;
  }

  lemma CommitSectorKeeps(s: State, l: Layout, home: seq<Block>)
    requires Inv(s, l, home) && s.phase.Committing?
    requires NextSector(s, l).Next?
    ensures Inv(NextSector(s, l).s, l, home)
  {
    hide DiskOk, HistoryOk, PhaseWrites;
    HistoryBound(s);
    CommitSectorKeepsDisk(s, l, home);
    SectorKeepsHistory(s, l);
  }

  lemma RecoverySectorKeeps(s: State, l: Layout, home: seq<Block>)
    requires Inv(s, l, home) && s.phase.Recovering?
    requires NextSector(s, l).Next?
    ensures Inv(NextSector(s, l).s, l, home)
  {
    var ws := PhaseWrites(s, l);
    assert ws[..s.phase.pc + 1][..s.phase.pc] == ws[..s.phase.pc];
  }

  lemma FinishKeeps(s: State, l: Layout, home: seq<Block>)
    requires Inv(s, l, home)
    requires Step(s, l, Finish).Next?
    ensures Inv(Step(s, l, Finish).s, l, home)
  {
    if s.phase.Committing? {
      FinishCommitKeeps(s, l, home);
    } else {
      FinishRecoveryKeeps(s, l, home);
    }
  }

  lemma FinishCommitKeeps(s: State, l: Layout, home: seq<Block>)
    requires Inv(s, l, home) && s.phase.Committing? && FinishPhase(s, l).Next?
    ensures Inv(FinishPhase(s, l).s, l, home)
  {
    hide HistoryOk, CommitWrites, WriteAll, Replay;
    HistoryBound(s);
    AllDurable(s);
    var ws := PhaseWrites(s, l);
    assert ws[..|ws|] == ws;
    assert s.history[..|s.history|] == s.history;
    AfterCommit(s.phase.from, l, s.v.secs);
    ViewOfClean(s.store);
    HistoryWaits(s.(durable := |s.history|), FinishPhase(s, l).s);
  }

  lemma FinishRecoveryKeeps(s: State, l: Layout, home: seq<Block>)
    requires Inv(s, l, home) && s.phase.Recovering? && FinishPhase(s, l).Next?
    ensures Inv(FinishPhase(s, l).s, l, home)
  {
    hide HistoryOk, RecoveryWrites, Replay;
    HistoryBound(s);
    var ws := PhaseWrites(s, l);
    assert ws[..|ws|] == ws;
    assert s.history[..|s.history|] == s.history;
    RecoverClears(s.phase.disk, l);
    ViewOfClean(s.store);
    HistoryWaits(s, FinishPhase(s, l).s);
  }

  /** The history does not depend on the phase or the log's variables. */
  lemma HistoryWaits(s: State, s': State)
    requires HistoryOk(s) && s'.history == s.history && s'.durable == s.durable
    requires s'.active == s.active && s'.nextOp == s.nextOp
    ensures HistoryOk(s')
  {
  }

  lemma ViewOfClean(st: Store)
    requires st.pinned == map[]
    ensures st.View() == st.disk
  {
  }

  /** What recovery would make of the disk at this moment: exactly the durable operations. */
  lemma RecoveredIsDurable(s: State, l: Layout, home: seq<Block>)
    requires Inv(s, l, home)
    ensures DiskHeadOk(s.store.disk, l)
    ensures Recover(s.store.disk, l)[..l.start] == Replay(home, s.history[..s.durable])
  {
    match s.phase
    case Idle =>
      EmptyHeadRecovers(s.store.disk, l);
    case Committing(from, pc) =>
      WriteAllSplits(from, CommitWrites(from, l, s.v.secs)[..pc]);
      CommitIsAtomic(from, l, s.v.secs, pc);
    case Recovering(d, pc) =>
      CrashInRecovery(d, l, pc);
      assert s.history[..s.durable] == s.history;
  }

  lemma CrashKeeps(s: State, l: Layout, home: seq<Block>)
    requires Inv(s, l, home)
    ensures Step(s, l, Crash).Next?
    ensures Inv(Step(s, l, Crash).s, l, home)
  {
    hide Recover, RecoveryWrites, Replay, CommitWrites, Uncommitted, WriteAll;
    RecoveredIsDurable(s, l, home);
    var d := s.store.disk;
    var h := s.history[..s.durable];
    assert Apply(d, RecoveryWrites(d, l)[..0]) == d;
    assert h[..|h|] == h;
  }

  /** Every state a step can stop in, a panic included. */
  ghost predicate Good(o: Outcome, l: Layout, home: seq<Block>)
  {
    match o
    case Next(s) => Inv(s, l, home)
    case Panic(_, s) => Inv(s, l, home)
    case Disabled => true
  }

  lemma StepKeeps(s: State, l: Layout, home: seq<Block>, a: Action)
    requires Inv(s, l, home)
    ensures Good(Step(s, l, a), l, home)
  {
    if Step(s, l, a).Next? {
      match a
      case Begin => BeginKeeps(s, l, home);
      case Write(op, sector, data) => WriteKeeps(s, l, home, op, sector, data);
      case End(op) => EndKeeps(s, l, home, op);
      case SectorOut =>
        if s.phase.Committing? {
          CommitSectorKeeps(s, l, home);
        } else {
          RecoverySectorKeeps(s, l, home);
        }
      case Finish => FinishKeeps(s, l, home);
      case Crash => CrashKeeps(s, l, home);
    }
  }

  lemma {:induction false} RunKeeps(s: State, l: Layout, home: seq<Block>, acts: seq<Action>)
    requires Inv(s, l, home)
    ensures Good(Exec(s, l, acts), l, home)
  {
    if acts != [] {
      var front := acts[..|acts| - 1];
      RunKeeps(s, l, home, front);
      var o := Exec(s, l, front);
      if o.Next? {
        StepKeeps(o.s, l, home, acts[|acts| - 1]);
      }
    }
  }

  // ---- Main results

  /** The state a run stops in. */
  ghost predicate Reaches(d: seq<Block>, l: Layout, acts: seq<Action>, s: State)
    requires DiskHeadOk(d, l)
  {
    var o := Exec(Boot(d, 0, []), l, acts);
    (o.Next? && o.s == s) || (o.Panic? && o.at == s)
  }

  /** Group commit.  Switch on any disk with a readable log header and let operations, commit,
      crashes and recoveries interleave in any way.  If power fails now, recovery yields exactly
      the effect of a prefix of what happened that consists of whole operations; meanwhile
      readers see the effect of everything that happened.
   */
  lemma GroupCommitSafe(d: seq<Block>, l: Layout, acts: seq<Action>, s: State)
    requires DiskHeadOk(d, l)
    requires Reaches(d, l, acts, s)
    ensures s.durable <= |s.history| && WholeOps(s.history, s.durable)
    ensures DiskHeadOk(s.store.disk, l)
    ensures Recover(s.store.disk, l)[..l.start]
         == Replay(Recover(d, l)[..l.start], s.history[..s.durable])
    ensures !s.phase.Recovering? ==>
      s.store.View()[..l.start] == Replay(Recover(d, l)[..l.start], s.history)
  {
    var home := Recover(d, l)[..l.start];
    BootInv(d, l);
    RunKeeps(Boot(d, 0, []), l, home, acts);
    RecoveredIsDurable(s, l, home);
    if s.phase.Committing? {
      CommittingView(s, l, home);
    }
  }

  lemma CommittingView(s: State, l: Layout, home: seq<Block>)
    requires Inv(s, l, home) && s.phase.Committing?
    ensures s.store.View()[..l.start] == Replay(home, s.history)
  {
    var from := s.phase.from;
    WriteAllSplits(from, CommitWrites(from, l, s.v.secs)[..s.phase.pc]);
    forall x | 0 <= x < l.start ensures s.store.View()[x] == from.View()[x] {
      ViewDuringCommit(from, l, s.v.secs, s.phase.pc, x);
    }
  }

  /** committing implies no outstanding operation, and two of the three panics cannot happen:
      end_op never finds a commit in progress and log_write is never outside a transaction.
   */
  lemma OnlySizePanic(d: seq<Block>, l: Layout, acts: seq<Action>)
    requires DiskHeadOk(d, l)
    ensures var o := Exec(Boot(d, 0, []), l, acts);
      && (o.Next? && o.s.v.committing ==> o.s.v.outstanding == 0)
      && (o.Panic? ==> o.why == "too big a transaction")
    decreases |acts|
  {
    var home := Recover(d, l)[..l.start];
    BootInv(d, l);
    RunKeeps(Boot(d, 0, []), l, home, acts);
    if acts != [] {
      var front := acts[..|acts| - 1];
      OnlySizePanic(d, l, front);
      RunKeeps(Boot(d, 0, []), l, home, front);
      var o := Exec(Boot(d, 0, []), l, front);
      if o.Next? {
        StepPanics(o.s, l, home, acts[|acts| - 1]);
      }
    }
  }

  lemma StepPanics(s: State, l: Layout, home: seq<Block>, a: Action)
    requires Inv(s, l, home)
    ensures Step(s, l, a).Panic? ==> Step(s, l, a).why == "too big a transaction" && a.Write? && TooBig(s.v, l)
  {
    if a.Write? && a.op in s.active {
      assert s.active.Keys != {};
    }
  }

  /** What is durable stays: no step, a crash included, loses or reorders a committed event. */
  lemma DurableGrows(s: State, l: Layout, home: seq<Block>, a: Action)
    requires Inv(s, l, home)
    requires Step(s, l, a).Next?
    ensures var s' := Step(s, l, a).s;
      s'.durable <= |s'.history| && s.history[..s.durable] <= s'.history[..s'.durable]
  {
    HistoryGrows(s, l, a);
    var s' := Step(s, l, a).s;
    assert s.history[..s.durable] == s'.history[..s.durable] == s'.history[..s'.durable][..s.durable];
  }

  lemma HistoryGrows(s: State, l: Layout, a: Action)
    requires s.durable <= |s.history|
    requires Step(s, l, a).Next?
    ensures var s' := Step(s, l, a).s;
      s.durable <= s'.durable <= |s'.history| && s'.history[..s.durable] == s.history[..s.durable]
  {
    match a
    case Begin =>
    case Write(_, _, _) =>
    case End(_) =>
    case SectorOut =>
    case Finish =>
    case Crash =>
  }

  lemma {:induction false} DurableForever(s: State, l: Layout, home: seq<Block>, acts: seq<Action>)
    requires Inv(s, l, home)
    requires Exec(s, l, acts).Next?
    ensures var s' := Exec(s, l, acts).s;
      s'.durable <= |s'.history| && s.history[..s.durable] <= s'.history[..s'.durable]
  {
    if acts != [] {
      var front := acts[..|acts| - 1];
      DurableForever(s, l, home, front);
      RunKeeps(s, l, home, front);
      DurableGrows(Exec(s, l, front).s, l, home, acts[|acts| - 1]);
    }
  }

  /** When the last end_op returns, everything its group did is durable. */
  lemma CommitReturnsDurable(s: State, l: Layout, home: seq<Block>)
    requires Inv(s, l, home) && s.phase.Committing?
    requires FinishPhase(s, l).Next?
    ensures var s' := FinishPhase(s, l).s;
      && s'.phase.Idle? && s'.durable == |s'.history|
      && |s'.store.disk| == |s.store.disk| && s'.store.disk[..l.start] == Replay(home, s.history)
  {
    hide Replay, CommitWrites;
    var ws := CommitWrites(s.phase.from, l, s.v.secs);
    assert ws[..|ws|] == ws;
    AfterCommit(s.phase.from, l, s.v.secs);
  }

  /** No lost wakeup: whoever sleeps in begin_op still has to, and there is a commit or an
      outstanding operation whose end will wake it.
   */
  lemma SleeperWillBeWoken(d: seq<Block>, l: Layout, acts: seq<Action>, s: State)
    requires DiskHeadOk(d, l)
    requires Reaches(d, l, acts, s)
    ensures s.v.sleepers > 0 ==> Blocked(s.v) && (s.v.committing || s.v.outstanding > 0)
  {
    BootInv(d, l);
    RunKeeps(Boot(d, 0, []), l, Recover(d, l)[..l.start], acts);
    if s.v.outstanding == 0 {
      assert s.active == map[];
    }
  }

  /** begin_op lets an operation in exactly when no commit is under way and the log has room for what is in it, ten
      more sectors for each operation already in, and ten for the new one; otherwise it sleeps and changes nothing. */
  lemma AdmitsExactly(d: seq<Block>, l: Layout, acts: seq<Action>, s: State)
    requires DiskHeadOk(d, l)
    requires Reaches(d, l, acts, s) && !s.phase.Recovering?
    ensures Step(s, l, Begin).Next?
    ensures var s' := Step(s, l, Begin).s;
      if !s.phase.Committing? && |s.v.secs| + 10 * |s.active| + 10 <= 30
      then
        && s'.active == s.active[s.nextOp := 0] && s.nextOp !in s.active && s'.v.outstanding == |s'.active|
        && s'.history == s.history + [Began(s.nextOp)] && s'.v.sleepers == s.v.sleepers
      else s' == s.(v := s.v.(sleepers := s.v.sleepers + 1))
  {
    BootInv(d, l);
    RunKeeps(Boot(d, 0, []), l, Recover(d, l)[..l.start], acts);
    AccountOk(s, l, Recover(d, l)[..l.start]);
    hide Inv, Exec, Recover, DiskHeadOk;
    if s.nextOp !in s.active { AddedOne(s.active, s.nextOp); }
  }

  lemma AccountOk(s: State, l: Layout, home: seq<Block>)
    requires Inv(s, l, home)
    ensures s.v.outstanding == |s.active| && (s.v.committing <==> s.phase.Committing?) && s.nextOp !in s.active
  {
  }

  lemma AddedOne(active: map<nat, nat>, op: nat)
    requires op !in active
    ensures |active[op := 0]| == |active| + 1
  {
    assert active[op := 0].Keys == active.Keys + {op};
  }
}
