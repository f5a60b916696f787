/** Every interleaving of readers, writers and closers of one pipe. */
module PipeCalls {
  import opened Pipe

  /** A call in progress; a writer has put its first i bytes. */
  datatype Call =
    | Writing(addr: seq<char>, i: nat, asleep: bool)
    | Reading(n: nat, asleep: bool)

  /** `flow` records what writers have put and what readers have got; no step looks at it. */
  datatype State = State(ring: Ring, flow: Flow, calls: map<nat, Call>)

  /** `killed` is what the process sees in proc->killed if it looks.  Wake is kill() ending a sleep. */
  datatype Action =
    | StartWrite(id: nat, addr: seq<char>)
    | StartRead(id: nat, n: nat)
    | Run(id: nat, killed: bool)
    | Wake(id: nat)
    | CloseRead
    | CloseWrite

  datatype Option<T> = None | Some(value: T)

  function Awake(c: Call): Call
  {
    match c
    case Writing(addr, i, _) => Writing(addr, i, false)
    case Reading(n, _) => Reading(n, false)
  }

  function WakeReaders(calls: map<nat, Call>): map<nat, Call>
  {
    map id | id in calls :: if calls[id].Reading? then Awake(calls[id]) else calls[id]
  }

  function WakeWriters(calls: map<nat, Call>): map<nat, Call>
  {
    map id | id in calls :: if calls[id].Writing? then Awake(calls[id]) else calls[id]
  }

  predicate CallOk(c: Call)
  {
    c.Writing? ==> c.i <= |c.addr|
  }

  /** The part of a call between two points at which the lock is free. */
  function RunCall(s: State, id: nat, killed: bool): Option<State>
  {
    if id !in s.calls || s.calls[id].asleep || |s.ring.data| != PIPESIZE || !CallOk(s.calls[id]) then None
    else
      match s.calls[id]
      case Writing(addr, i, _) =>
        var (r, j) := PutBytes(s.ring, addr, i);
        var s' := s.(ring := r, flow := s.flow.(written := s.flow.written + addr[i..j]));
        Some(if j == |addr| then s'.(calls := WakeReaders(s.calls - {id}))
             else if !r.readopen || killed then s'.(calls := s.calls - {id})
             else s'.(calls := WakeReaders(s.calls)[id := Writing(addr, j, true)]))
      case Reading(n, _) =>
        if Empty(s.ring) && s.ring.writeopen then
          Some(s.(calls := if killed then s.calls - {id} else s.calls[id := Reading(n, true)]))
        else
          var (r, cs) := GetBytes(s.ring, n);
          Some(s.(ring := r, flow := s.flow.(got := s.flow.got + cs), calls := WakeWriters(s.calls - {id})))
  }

  function Step(s: State, a: Action): Option<State>
  {
    if !s.ring.readopen && !s.ring.writeopen then None
    else
      match a
      case StartWrite(id, addr) =>
        if id in s.calls then None else Some(s.(calls := s.calls[id := Writing(addr, 0, false)]))
      case StartRead(id, n) =>
        if id in s.calls then None else Some(s.(calls := s.calls[id := Reading(n, false)]))
      case Run(id, killed) => RunCall(s, id, killed)
      case Wake(id) =>
        if id !in s.calls then None else Some(s.(calls := s.calls[id := Awake(s.calls[id])]))
      case CloseRead => Some(s.(ring := s.ring.(readopen := false), calls := WakeWriters(s.calls)))
      case CloseWrite => Some(s.(ring := s.ring.(writeopen := false), calls := WakeReaders(s.calls)))
  }

  /** A run; None if it contains an action that cannot be taken. */
  function Exec(s: State, acts: seq<Action>): Option<State>
  {
    if acts == [] then Some(s)
    else
      match Exec(s, acts[..|acts| - 1])
      case None => None
      case Some(s') => Step(s', acts[|acts| - 1])
  }

  /** pipealloc */
  function Start(): State
  {
    State(Ring(seq(PIPESIZE, _ => '\0'), 0, 0, true, true), Flow([], []), map[])
  }

  // ---- Invariants

  /** A sleeping writer has a full pipe that somebody may still read. */
  predicate WriterOk(s: State, id: nat)
  {
    id in s.calls && s.calls[id].Writing? && s.calls[id].asleep ==> s.ring.readopen && Full(s.ring)
  }

  /** A sleeping reader has an empty pipe that somebody may still write. */
  predicate ReaderOk(s: State, id: nat)
  {
    id in s.calls && s.calls[id].Reading? && s.calls[id].asleep ==> s.ring.writeopen && Empty(s.ring)
  }

  ghost predicate Inv(s: State)
  {
    && Rep(s.ring, s.flow)
    && (forall id {:trigger WriterOk(s, id)} :: WriterOk(s, id))
    && (forall id :: id in s.calls ==> CallOk(s.calls[id]))
  }

  ghost predicate ReadersOk(s: State)
  {
    forall id {:trigger ReaderOk(s, id)} :: ReaderOk(s, id)
  }

  lemma WriteRunKeeps(s: State, id: nat, killed: bool)
    requires Inv(s) && RunCall(s, id, killed).Some? && s.calls[id].Writing?
    ensures Inv(RunCall(s, id, killed).value)
  {
    var s' := RunCall(s, id, killed).value;
    var c := s.calls[id];
    PutBytesKeeps(s.ring, s.flow, c.addr, c.i);
    hide Rep, Full;
    forall o ensures WriterOk(s', o) { assert WriterOk(s, o); }
  }

  lemma ReadRunKeeps(s: State, id: nat, killed: bool)
    requires Inv(s) && RunCall(s, id, killed).Some? && s.calls[id].Reading?
    ensures Inv(RunCall(s, id, killed).value)
  {
    var s' := RunCall(s, id, killed).value;
    GetBytesKeeps(s.ring, s.flow, s.calls[id].n);
    hide Rep, Full;
    forall o ensures WriterOk(s', o) { assert WriterOk(s, o); }
  }

  lemma StepKeeps(s: State, a: Action)
    requires Inv(s) && Step(s, a).Some?
    ensures Inv(Step(s, a).value)
  {
    if a.Run? {
      if s.calls[a.id].Writing? { WriteRunKeeps(s, a.id, a.killed); } else { ReadRunKeeps(s, a.id, a.killed); }
    } else {
      var s' := Step(s, a).value;
      forall o ensures WriterOk(s', o) { assert WriterOk(s, o); }
    }
  }

  lemma StartOk()
    ensures Inv(Start())
  {
  }

  /** Over every interleaving: the ring, its counters wrapping at 2^32, holds exactly the bytes written and not
      yet read, in order; what has been read is a prefix of what has been written; at most PIPESIZE bytes are in
      flight; and a writer sleeps only on a full pipe that somebody may still read. */
  lemma {:induction false} FifoAlways(acts: seq<Action>)
    ensures Exec(Start(), acts).Some? ==>
      var s := Exec(Start(), acts).value;
      && Inv(s) && s.flow.got <= s.flow.written && |s.flow.written| - |s.flow.got| <= PIPESIZE
      && (Full(s.ring) <==> |s.flow.written| - |s.flow.got| == PIPESIZE)
      && (Empty(s.ring) <==> s.flow.written == s.flow.got)
  {
    if acts == [] {
      StartOk();
    } else {
      var front := acts[..|acts| - 1];
      FifoAlways(front);
      if Exec(Start(), front).Some? && Step(Exec(Start(), front).value, acts[|acts| - 1]).Some? {
        StepKeeps(Exec(Start(), front).value, acts[|acts| - 1]);
      }
    }
    hide Inv, Step, Full, Empty;
    if Exec(Start(), acts).Some? { InvTells(Exec(Start(), acts).value); }
  }

  lemma InvTells(s: State)
    requires Inv(s)
    ensures s.flow.got <= s.flow.written && |s.flow.written| - |s.flow.got| <= PIPESIZE
    ensures Full(s.ring) <==> |s.flow.written| - |s.flow.got| == PIPESIZE
    ensures Empty(s.ring) <==> s.flow.written == s.flow.got
  {
    CountersTell(s.ring, s.flow);
  }

  // ---- How a call ends

  predicate NoReaderAsleep(calls: map<nat, Call>)
  {
    forall id :: id in calls && calls[id].Reading? ==> !calls[id].asleep
  }

  predicate NoWriterAsleep(calls: map<nat, Call>)
  {
    forall id :: id in calls && calls[id].Writing? ==> !calls[id].asleep
  }

  /** A writer puts the bytes there is room for.  With none left over it is gone and no reader sleeps on; with some
      left over it is gone too, waking nobody, if it is killed or nobody can read, and otherwise it sleeps, at the
      first byte left over, with the readers woken.  This is what WriteOutcome says of the flow. */
  lemma WriterEnds(s: State, id: nat, killed: bool)
    requires Inv(s) && id in s.calls && s.calls[id].Writing? && !s.calls[id].asleep
    ensures s.calls[id].i <= |s.calls[id].addr| && |s.flow.got| <= |s.flow.written| <= |s.flow.got| + PIPESIZE
    ensures RunCall(s, id, killed).Some?
    ensures var c := s.calls[id]; var s' := RunCall(s, id, killed).value; var j := c.i + Room(s.flow, |c.addr| - c.i);
      && s'.flow == Flow(s.flow.written + c.addr[c.i..j], s.flow.got)
      && match WriteOutcome(s.flow, s.ring.readopen, c.addr, c.i, killed) {
           case Wrote => j == |c.addr| && id !in s'.calls && NoReaderAsleep(s'.calls)
           case WriteFailed => j < |c.addr| && (killed || !s.ring.readopen) && s'.calls == s.calls - {id}
           case WriteSleeps =>
             && j < |c.addr| && !killed && s.ring.readopen
             && id in s'.calls && s'.calls[id] == Writing(c.addr, j, true) && NoReaderAsleep(s'.calls)
         }
  {
    RepRange(s.ring, s.flow);
    assert CallOk(s.calls[id]);
    PutBytesKeeps(s.ring, s.flow, s.calls[id].addr, s.calls[id].i);
    hide Rep, PutBytes, Room;
  }

  /** A reader at an empty pipe that somebody may still write sleeps, or fails if it is killed, and changes nothing
      else; any other reader is gone with the oldest bytes, at most as many as it asked for, and no writer sleeps on.
      This is what ReadOutcome says of the flow. */
  lemma ReaderEnds(s: State, id: nat, killed: bool)
    requires Inv(s) && id in s.calls && s.calls[id].Reading? && !s.calls[id].asleep
    ensures |s.flow.got| <= |s.flow.written|
    ensures RunCall(s, id, killed).Some?
    ensures var n := s.calls[id].n; var s' := RunCall(s, id, killed).value; var g := |s.flow.got|;
      match ReadOutcome(s.flow, s.ring.writeopen, killed) {
        case ReadSleeps =>
          && s.flow.written == s.flow.got && s.ring.writeopen && !killed
          && s' == s.(calls := s.calls[id := Reading(n, true)])
        case ReadFailed =>
          && s.flow.written == s.flow.got && s.ring.writeopen && killed
          && s' == s.(calls := s.calls - {id})
        case Read =>
          && (s.flow.written != s.flow.got || !s.ring.writeopen)
          && s'.flow == Flow(s.flow.written, s.flow.got + s.flow.written[g..g + Taken(s.flow, n)])
          && id !in s'.calls && NoWriterAsleep(s'.calls)
      }
  {
    RepRange(s.ring, s.flow);
    CountersTell(s.ring, s.flow);
    GetBytesKeeps(s.ring, s.flow, s.calls[id].n);
    hide Rep, GetBytes, Taken;
  }

  /** End of file: when the write end is closed and everything written has been read, a read ends at once, without
      bytes. */
  lemma EndOfFile(s: State, id: nat, killed: bool)
    requires Inv(s) && id in s.calls && s.calls[id].Reading? && !s.calls[id].asleep
    requires s.flow.written == s.flow.got && !s.ring.writeopen
    ensures RunCall(s, id, killed).Some?
    ensures var s' := RunCall(s, id, killed).value;
      id !in s'.calls && s'.ring == s.ring && s'.flow == s.flow
    ensures ReadOutcome(s.flow, s.ring.writeopen, killed) == Read
  {
    ReaderEnds(s, id, killed);
    CountersTell(s.ring, s.flow);
    GetBytesUnfolds(s.ring, s.calls[id].n);
    assert s.flow.got + [] == s.flow.got;
  }

  /** A killed process never goes to sleep on a pipe. */
  lemma KilledNeverSleeps(s: State, id: nat)
    requires Inv(s) && id in s.calls && !s.calls[id].asleep
    ensures RunCall(s, id, true).Some? && id !in RunCall(s, id, true).value.calls
  {
    if s.calls[id].Writing? { WriterEnds(s, id, true); } else { ReaderEnds(s, id, true); }
    hide RunCall, Inv;
  }

  /** Bytes once in the pipe stay in order and are never lost: both ends of the flow only grow. */
  lemma FlowGrows(s: State, a: Action)
    requires Inv(s) && Step(s, a).Some?
    ensures var f := Step(s, a).value.flow; s.flow.written <= f.written && s.flow.got <= f.got
  {
  }

  // ---- Readers

  predicate SleepingReader(s: State, id: nat)
  {
    id in s.calls && s.calls[id].Reading? && s.calls[id].asleep
  }

  /** A writer that fills an empty pipe, must stop, and is killed or has no reader end. */
  ghost predicate Strands(s: State, a: Action)
  {
    && a.Run? && a.id in s.calls && s.calls[a.id].Writing? && !s.calls[a.id].asleep
    && |s.calls[a.id].addr| - s.calls[a.id].i > PIPESIZE
    && (a.killed || !s.ring.readopen)
    && exists r :: SleepingReader(s, r)
  }

  /** A writer at an empty pipe puts at least a byte, and all of them unless they are more than fit. */
  lemma WriterAtEmpty(s: State, id: nat)
    requires Inv(s) && Empty(s.ring) && id in s.calls && s.calls[id].Writing?
    ensures var c := s.calls[id]; var (r, j) := PutBytes(s.ring, c.addr, c.i);
      && (j == |c.addr| <==> |c.addr| - c.i <= PIPESIZE)
      && (|c.addr| - c.i > PIPESIZE ==> !Empty(r))
  {
    var c := s.calls[id];
    CountersTell(s.ring, s.flow);
    PutBytesKeeps(s.ring, s.flow, c.addr, c.i);
    var (r, j) := PutBytes(s.ring, c.addr, c.i);
    CountersTell(r, s.flow.(written := s.flow.written + c.addr[c.i..j]));
  }

  /** Exactly such a step leaves a reader asleep on a pipe with bytes in it. */
  lemma StrandsExactly(s: State, a: Action)
    requires Inv(s) && ReadersOk(s) && Step(s, a).Some?
    ensures ReadersOk(Step(s, a).value) <==> !Strands(s, a)
  {
    var s' := Step(s, a).value;
    forall o ensures SleepingReader(s, o) ==> s.ring.writeopen && Empty(s.ring) { assert ReaderOk(s, o); }
    if a.Run? && s.calls[a.id].Writing? && Empty(s.ring) { WriterAtEmpty(s, a.id); }
    hide Rep, PutBytes;
    if Strands(s, a) {
      var r :| SleepingReader(s, r);
      assert !ReaderOk(s', r);
    } else {
      forall o ensures ReaderOk(s', o) {
        assert ReaderOk(s, o);
        if a.Run? && SleepingReader(s, o) { assert !Strands(s, a); }
      }
    }
  }

  ghost predicate NeverStrands(acts: seq<Action>)
  {
    acts == [] ||
    var front := acts[..|acts| - 1];
    NeverStrands(front) && (Exec(Start(), front).Some? ==> !Strands(Exec(Start(), front).value, acts[|acts| - 1]))
  }

  /** Without such a step a reader sleeps only on an empty pipe that somebody may still write. */
  lemma {:induction false} ReadersNeverMiss(acts: seq<Action>)
    requires NeverStrands(acts)
    ensures Exec(Start(), acts).Some? ==> ReadersOk(Exec(Start(), acts).value)
  {
    if acts != [] {
      var front := acts[..|acts| - 1];
      ReadersNeverMiss(front);
      FifoAlways(front);
      if Exec(Start(), front).Some? && Step(Exec(Start(), front).value, acts[|acts| - 1]).Some? {
        StrandsExactly(Exec(Start(), front).value, acts[|acts| - 1]);
      }
    }
  }

  /** It can happen: a reader sleeps on the empty pipe, a killed writer brings one byte more than
      fits, and leaves the pipe full without waking the reader.
   */
  lemma KilledWriterStrandsReader(addr: seq<char>, n: nat) returns (s: State)
    requires |addr| > PIPESIZE
    ensures Exec(Start(), [StartRead(0, n), Run(0, false), StartWrite(1, addr), Run(1, true)]) == Some(s)
    ensures SleepingReader(s, 0) && Full(s.ring) && s.flow == Flow(addr[..PIPESIZE], [])
  {
    var a1, a2, a3, a4 := StartRead(0, n), Run(0, false), StartWrite(1, addr), Run(1, true);
    var s0 := Start();
    var s1 := s0.(calls := map[0 := Reading(n, false)]);
    var s2 := s0.(calls := map[0 := Reading(n, true)]);
    var s3 := s0.(calls := map[0 := Reading(n, true), 1 := Writing(addr, 0, false)]);
    StartOk();
    PutBytesKeeps(s0.ring, s0.flow, addr, 0);
    var (r, j) := PutBytes(s0.ring, addr, 0);
    assert j == PIPESIZE && addr[0..j] == addr[..PIPESIZE];
    s := State(r, Flow(addr[..PIPESIZE], []), map[0 := Reading(n, true)]);
    hide PutBytes, Start, Rep;
    assert [a1, a2, a3, a4][..3] == [a1, a2, a3] && [a1, a2, a3][..2] == [a1, a2];
    assert [a1, a2][..1] == [a1] && [a1][..0] == [];
    assert Exec(s0, []) == Some(s0);
    assert Exec(s0, [a1]) == Some(s1);
    assert s1.calls[0 := Reading(n, true)] == s2.calls;
    assert Step(s1, a2) == Some(s2);
    assert Exec(s0, [a1, a2]) == Some(s2);
    assert Exec(s0, [a1, a2, a3]) == Some(s3);
    assert s3.calls - {1} == map[0 := Reading(n, true)];
    assert [] + addr[..PIPESIZE] == addr[..PIPESIZE];
    assert Step(s3, a4) == Some(s);
  }
}
