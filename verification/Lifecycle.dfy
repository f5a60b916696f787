/** The process table of proc.c as a state machine: each action is what one process does while it
    holds ptable.lock.  Slots of the table stand for process pointers.
 */
module Lifecycle {
  import Queue = RunQueue

  const NONE := -1
  const INIT := 0

  datatype Status = UNUSED | EMBRYO | SLEEPING | RUNNABLE | RUNNING | ZOMBIE

  /** What a process sleeps on: wait() sleeps on the process itself. */
  datatype Chan = NoChan | OfProc(slot: int) | Other(id: int)

  /** `pending` holds the numbers of the signals sent and not yet taken. */
  datatype Proc = Proc(status: Status, pid: int, parent: int, chan: Chan, killed: bool, pending: set<int>)

  datatype Table = Table(procs: seq<Proc>, queue: seq<int>, nextpid: int)

  predicate InTable(t: Table, i: int)
  {
    0 <= i < |t.procs|
  }

  predicate Alive(p: Proc)
  {
    p.status == SLEEPING || p.status == RUNNABLE || p.status == RUNNING
  }

  // ---- The operations on tables

  predicate Sleeps(p: Proc, chan: Chan)
  {
    p.status == SLEEPING && p.chan == chan
  }

  /** Slots below n asleep on chan, in table order. */
  function Sleepers(procs: seq<Proc>, chan: Chan, n: nat): seq<int>
    requires n <= |procs|
  {
    if n == 0 then []
    else if Sleeps(procs[n - 1], chan) then Sleepers(procs, chan, n - 1) + [n - 1]
    else Sleepers(procs, chan, n - 1)
  }

  function WakeProcs(procs: seq<Proc>, chan: Chan): (r: seq<Proc>)
    ensures |r| == |procs|
  {
    seq(|procs|, i requires 0 <= i < |procs| =>
      if Sleeps(procs[i], chan) then procs[i].(status := RUNNABLE) else procs[i])
  }

  /** wakeup1 */
  function Wake(t: Table, chan: Chan): (r: Table)
    ensures |r.procs| == |t.procs|
  {
    t.(procs := WakeProcs(t.procs, chan), queue := t.queue + Sleepers(t.procs, chan, |t.procs|))
  }

  predicate ZombieChild(procs: seq<Proc>, me: int, i: int)
  {
    0 <= i < |procs| && procs[i].parent == me && procs[i].status == ZOMBIE
  }

  function Reparent(procs: seq<Proc>, me: int): (r: seq<Proc>)
    ensures |r| == |procs|
  {
    seq(|procs|, i requires 0 <= i < |procs| =>
      if procs[i].parent == me then procs[i].(parent := INIT) else procs[i])
  }

  /** exit, after the files are closed. */
  function ExitTable(t: Table, me: int): Table
    requires InTable(t, me)
  {
    var t1 := Wake(t, OfProc(t.procs[me].parent));
    var t2 := t1.(procs := Reparent(t1.procs, me));
    var t3 := if exists i :: 0 <= i < |t1.procs| && ZombieChild(t1.procs, me, i) then Wake(t2, OfProc(INIT)) else t2;
    t3.(procs := t3.procs[me := t3.procs[me].(status := ZOMBIE)])
  }

  /** The slot that wait reaps: the first zombie child. */
  function FirstZombie(procs: seq<Proc>, me: int, i: nat): (z: int)
    requires i <= |procs|
    ensures z == NONE || (i <= z < |procs| && ZombieChild(procs, me, z))
    ensures z == NONE ==> forall k :: i <= k < |procs| ==> !ZombieChild(procs, me, k)
    decreases |procs| - i
  {
    if i == |procs| then NONE else if ZombieChild(procs, me, i) then i else FirstZombie(procs, me, i + 1)
  }

  predicate HasKids(procs: seq<Proc>, me: int)
  {
    exists i :: 0 <= i < |procs| && procs[i].parent == me
  }

  /** One scan of wait: reap, give up, or sleep. */
  function WaitTable(t: Table, me: int): Table
    requires InTable(t, me)
  {
    var z := FirstZombie(t.procs, me, 0);
    if z != NONE then
      t.(procs := t.procs[z := t.procs[z].(status := UNUSED, pid := 0, parent := NONE, killed := false)])
    else if !HasKids(t.procs, me) || t.procs[me].killed then t
    else t.(procs := t.procs[me := t.procs[me].(status := SLEEPING, chan := OfProc(me))])
  }

  /** The first slot with a pid. */
  function Find(procs: seq<Proc>, pid: int, i: nat): (z: int)
    requires i <= |procs|
    ensures z == NONE || (i <= z < |procs| && procs[z].pid == pid)
    ensures z == NONE ==> forall k :: i <= k < |procs| ==> procs[k].pid != pid
    decreases |procs| - i
  {
    if i == |procs| then NONE else if procs[i].pid == pid then i else Find(procs, pid, i + 1)
  }

  function KillTable(t: Table, pid: int): Table
  {
    var z := Find(t.procs, pid, 0);
    if z == NONE then t
    else
      var p := t.procs[z].(killed := true);
      if p.status == SLEEPING then t.(procs := t.procs[z := p.(status := RUNNABLE)], queue := t.queue + [z])
      else t.(procs := t.procs[z := p])
  }

  predicate IsSignal(sig: int)
  {
    0 <= sig < 31
  }

  /** sigsend marks the signal pending; it makes a sleeper RUNNABLE and does not queue it. */
  function SigsendTable(t: Table, pid: int, sig: int): Table
  {
    var z := Find(t.procs, pid, 0);
    if !IsSignal(sig) || z == NONE then t
    else
      var p := t.procs[z].(pending := t.procs[z].pending + {sig});
      t.(procs := t.procs[z := if p.status == SLEEPING then p.(status := RUNNABLE) else p])
  }

  /** The slot of the sleeper that it wakes. */
  function Roused(t: Table, pid: int, sig: int): (r: set<int>)
  {
    var z := Find(t.procs, pid, 0);
    if IsSignal(sig) && z != NONE && t.procs[z].status == SLEEPING then {z} else {}
  }

  /** The first free slot. */
  function FirstUnused(procs: seq<Proc>, i: nat): (z: int)
    requires i <= |procs|
    ensures z == NONE || (i <= z < |procs| && procs[z].status == UNUSED)
    ensures z == NONE ==> forall k :: i <= k < |procs| ==> procs[k].status != UNUSED
    decreases |procs| - i
  {
    if i == |procs| then NONE else if procs[i].status == UNUSED then i else FirstUnused(procs, i + 1)
  }

  function AllocTable(t: Table): Table
  {
    var z := FirstUnused(t.procs, 0);
    if z == NONE then t
    else t.(procs := t.procs[z := t.procs[z].(status := EMBRYO, pid := t.nextpid)], nextpid := t.nextpid + 1)
  }

  /** The scheduler starting the process at place k of the queue. */
  function Run(t: Table, k: int): Table
    requires 0 <= k < |t.queue| && InTable(t, t.queue[k])
  {
    var i := t.queue[k];
    t.(procs := t.procs[i := t.procs[i].(status := RUNNING, chan := NoChan)], queue := Queue.Without(t.queue, k))
  }

  // ---- The machine

  /** Beside the table, what happened so far: who exited, who was reaped and by whom (`reapers`), and who forked
      whom (`forks`, from child to forker), all by pid; `stray` holds the slots that sigsend made RUNNABLE. */
  datatype State = State(t: Table, exited: set<int>, reaped: seq<int>, stray: set<int>,
                         forks: map<int, int>, reapers: map<int, int>)

  /** fork takes the steps Alloc, then ForkFail, or ForkParent and ForkReady. */
  datatype Action =
    | Alloc(me: int)
    | ForkFail(me: int, c: int)
    | ForkParent(me: int, c: int)
    | ForkReady(me: int, c: int)
    | Exit(me: int)
    | Wait(me: int)
    | Sleep(me: int, id: int)
    | Wakeup(id: int)
    | Kill(pid: int)
    | Sigsend(pid: int, sig: int)
    | Yield(me: int)
    | Schedule(k: int)

  predicate Has(t: Table, i: int, st: Status)
  {
    InTable(t, i) && t.procs[i].status == st
  }

  /** What the table must be for a step to be taken on it. */
  predicate CanTake(t: Table, a: Action)
  {
    match a
    case Alloc(_) => true
    case ForkFail(_, c) => Has(t, c, EMBRYO)
    case ForkParent(_, c) => Has(t, c, EMBRYO)
    case ForkReady(_, c) => Has(t, c, EMBRYO)
    case Exit(me) => Has(t, me, RUNNING) && me != INIT
    case Wait(me) => Has(t, me, RUNNING)
    case Sleep(me, _) => Has(t, me, RUNNING)
    case Wakeup(_) => true
    case Kill(_) => true
    case Sigsend(_, _) => true
    case Yield(me) => Has(t, me, RUNNING)
    case Schedule(k) => 0 <= k < |t.queue| && InTable(t, t.queue[k])
  }

  /** Slot c holds the child of a fork that the running process me is in. */
  predicate Forking(s: State, me: int, c: int)
  {
    && Has(s.t, me, RUNNING) && Has(s.t, c, EMBRYO)
    && s.t.procs[c].pid in s.forks && s.forks[s.t.procs[c].pid] == s.t.procs[me].pid
  }

  predicate Enabled(s: State, a: Action)
  {
    && CanTake(s.t, a)
    && match a
       case Alloc(me) => Has(s.t, me, RUNNING)
       case ForkFail(me, c) => Forking(s, me, c) && s.t.procs[c].parent == NONE
       case ForkParent(me, c) => Forking(s, me, c) && s.t.procs[c].parent == NONE
       case ForkReady(me, c) => Forking(s, me, c) && s.t.procs[c].parent != NONE
       case _ => true
  }

  function SetStatus(t: Table, i: int, st: Status): Table
    requires InTable(t, i)
  {
    t.(procs := t.procs[i := t.procs[i].(status := st)])
  }

  /** The table after a step. */
  function TableStep(t: Table, a: Action): Table
    requires CanTake(t, a)
  {
    match a
    case Alloc(_) => AllocTable(t)
    case ForkFail(_, c) => SetStatus(t, c, UNUSED)
    case ForkParent(me, c) => t.(procs := t.procs[c := t.procs[c].(parent := me)])
    case ForkReady(_, c) => SetStatus(t, c, RUNNABLE).(queue := t.queue + [c])
    case Exit(me) => ExitTable(t, me)
    case Wait(me) => WaitTable(t, me)
    case Sleep(me, id) => t.(procs := t.procs[me := t.procs[me].(status := SLEEPING, chan := Other(id))])
    case Wakeup(id) => Wake(t, Other(id))
    case Kill(pid) => KillTable(t, pid)
    case Sigsend(pid, sig) => SigsendTable(t, pid, sig)
    case Yield(me) => SetStatus(t, me, RUNNABLE).(queue := t.queue + [me])
    case Schedule(k) => Run(t, k)
  }

  /** A step, with the record of what happened. */
  function Step(s: State, a: Action): State
    requires Enabled(s, a)
  {
    var t := s.t;
    var s' := s.(t := TableStep(t, a));
    match a
    case Alloc(me) =>
      if FirstUnused(t.procs, 0) == NONE then s' else s'.(forks := s.forks[t.nextpid := t.procs[me].pid])
    case Exit(me) => s'.(exited := s.exited + {t.procs[me].pid})
    case Wait(me) =>
      var z := FirstZombie(t.procs, me, 0);
      if z == NONE then s'
      else s'.(reaped := s.reaped + [t.procs[z].pid], reapers := s.reapers[t.procs[z].pid := t.procs[me].pid])
    case Sigsend(pid, sig) => s'.(stray := s.stray + Roused(t, pid, sig))
    case _ => s'
  }

  // ---- What holds in every state

  ghost predicate SlotOk(s: State, i: int)
  {
    InTable(s.t, i) ==>
      var p := s.t.procs[i];
      && (p.status == UNUSED ==> p.parent == NONE)
      && p.parent != i && (i == INIT ==> p.parent == NONE)
      && (p.parent != NONE ==> InTable(s.t, p.parent) && Alive(s.t.procs[p.parent]))
      && ((Alive(p) || p.status == ZOMBIE) && i != INIT ==> p.parent != NONE)
      && (p.status == SLEEPING && p.chan.OfProc? ==> p.chan == OfProc(i))
      && (p.status == RUNNABLE ==> i in s.t.queue || i in s.stray)
      && (i in s.stray ==> p.status == RUNNABLE && i !in s.t.queue)
      && 0 <= p.pid < s.t.nextpid && (p.status != UNUSED ==> p.pid > 0)
      && (p.status == ZOMBIE <==> p.status != UNUSED && p.pid in s.exited)
      && (p.status == ZOMBIE ==> p.pid !in s.reaped)
  }

  /** Nobody sleeps in wait while it has a zombie child; no pid is in two slots. */
  ghost predicate PairOk(s: State, i: int, j: int)
  {
    InTable(s.t, i) && InTable(s.t, j) ==>
      && (Sleeps(s.t.procs[i], OfProc(i)) ==> !ZombieChild(s.t.procs, i, j))
      && (i != j && s.t.procs[i].pid == s.t.procs[j].pid ==> s.t.procs[i].pid == 0)
  }

  ghost predicate QueueAt(t: Table, k: int)
  {
    0 <= k < |t.queue| ==> Has(t, t.queue[k], RUNNABLE)
  }

  ghost predicate QueueOk(t: Table)
  {
    && (forall k {:trigger QueueAt(t, k)} :: QueueAt(t, k))
    && forall i, j :: 0 <= i < j < |t.queue| ==> t.queue[i] != t.queue[j]
  }

  /** An exited child is reaped at most once, and until then it is a zombie in the table. */
  ghost predicate ReapOk(s: State)
  {
    && (forall i, j :: 0 <= i < j < |s.reaped| ==> s.reaped[i] != s.reaped[j])
    && (forall pid :: pid in s.reaped ==> pid in s.exited)
    && (forall pid :: pid in s.exited ==> pid < s.t.nextpid)
    && (forall pid {:trigger pid in s.exited} :: pid in s.exited && pid !in s.reaped ==>
          exists i :: Has(s.t, i, ZOMBIE) && s.t.procs[i].pid == pid)
  }

  ghost predicate Inv(s: State)
  {
    && InTable(s.t, INIT) && Alive(s.t.procs[INIT]) && 0 < s.t.nextpid
    && (forall i {:trigger SlotOk(s, i)} :: SlotOk(s, i))
    && (forall i, j {:trigger PairOk(s, i, j)} :: PairOk(s, i, j))
    && QueueOk(s.t)
    && ReapOk(s)
  }

  /** The table userinit leaves: only init, ready to run. */
  ghost predicate Boot(s: State)
  {
    && |s.t.procs| > 0
    && s.t.procs[INIT] == Proc(RUNNABLE, 1, NONE, NoChan, false, {})
    && (forall i :: 1 <= i < |s.t.procs| ==> s.t.procs[i] == Proc(UNUSED, 0, NONE, NoChan, false, {}))
    && s.t.queue == [INIT] && s.t.nextpid == 2
    && s.exited == {} && s.reaped == [] && s.stray == {} && s.forks == map[] && s.reapers == map[]
  }

  lemma BootOk(s: State)
    requires Boot(s)
    ensures Inv(s)
  {
    assert INIT in s.t.queue;
    forall i ensures SlotOk(s, i) { }
    forall i, j ensures PairOk(s, i, j) { }
    forall k ensures QueueAt(s.t, k) { }
  }

  // ---- Waking

  lemma {:induction false} SleepersAre(procs: seq<Proc>, chan: Chan, n: nat, x: int)
    requires n <= |procs|
    ensures x in Sleepers(procs, chan, n) <==> 0 <= x < n && Sleeps(procs[x], chan)
  {
    if n > 0 { SleepersAre(procs, chan, n - 1, x); }
  }

  lemma {:induction false} SleepersRise(procs: seq<Proc>, chan: Chan, n: nat, i: nat, j: nat)
    requires n <= |procs| && i < j < |Sleepers(procs, chan, n)|
    ensures Sleepers(procs, chan, n)[i] < Sleepers(procs, chan, n)[j]
  {
    var s := Sleepers(procs, chan, n - 1);
    if j < |s| {
      SleepersRise(procs, chan, n - 1, i, j);
    } else {
      SleepersAre(procs, chan, n - 1, s[i]);
    }
  }

  lemma WakeQueue(t: Table, chan: Chan)
    requires QueueOk(t)
    ensures QueueOk(Wake(t, chan))
  {
    var woken := Sleepers(t.procs, chan, |t.procs|);
    var t' := Wake(t, chan);
    var n := |t.queue|;
    forall k ensures QueueAt(t', k) {
      assert QueueAt(t, k);
      if n <= k < |t'.queue| {
        assert t'.queue[k] == woken[k - n];
        SleepersAre(t.procs, chan, |t.procs|, woken[k - n]);
      }
    }
    forall i, j | 0 <= i < j < |t'.queue| ensures t'.queue[i] != t'.queue[j] {
      assert QueueAt(t, i);
      if j >= n {
        SleepersAre(t.procs, chan, |t.procs|, woken[j - n]);
        if i >= n { SleepersRise(t.procs, chan, |t.procs|, i - n, j - n); }
      }
    }
  }

  /** wakeup1 makes exactly the sleepers on the channel RUNNABLE and queues exactly them. */
  lemma WakesExactly(t: Table, chan: Chan, i: int)
    requires QueueOk(t) && InTable(t, i)
    ensures var t' := Wake(t, chan);
      && QueueOk(t')
      && (i in t'.queue <==> i in t.queue || Sleeps(t.procs[i], chan))
      && t'.procs[i] == if Sleeps(t.procs[i], chan) then t.procs[i].(status := RUNNABLE) else t.procs[i]
  {
    WakeQueue(t, chan);
    SleepersAre(t.procs, chan, |t.procs|, i);
  }

  lemma WakeKeeps(s: State, chan: Chan)
    requires Inv(s)
    ensures Inv(s.(t := Wake(s.t, chan)))
  {
    var s' := s.(t := Wake(s.t, chan));
    WakeQueue(s.t, chan);
    assert SlotOk(s, INIT);
    forall i ensures SlotOk(s', i) {
      assert SlotOk(s, i);
      SleepersAre(s.t.procs, chan, |s.t.procs|, i);
    }
    forall i, j ensures PairOk(s', i, j) { assert PairOk(s, i, j); }
    SameZombies(s, s');
  }

  /** Steps that neither exit nor reap keep the accounting. */
  lemma SameZombies(s: State, s': State)
    requires ReapOk(s) && s'.exited == s.exited && s'.reaped == s.reaped
    requires s.t.nextpid <= s'.t.nextpid && |s'.t.procs| == |s.t.procs|
    requires forall i {:trigger s'.t.procs[i]} :: Has(s.t, i, ZOMBIE) ==>
               s'.t.procs[i].status == ZOMBIE && s'.t.procs[i].pid == s.t.procs[i].pid
    ensures ReapOk(s')
  {
    forall pid | pid in s'.exited && pid !in s'.reaped
      ensures exists i :: Has(s'.t, i, ZOMBIE) && s'.t.procs[i].pid == pid
    {
      assert pid in s.exited;
      var i :| Has(s.t, i, ZOMBIE) && s.t.procs[i].pid == pid;
      assert Has(s'.t, i, ZOMBIE) && s'.t.procs[i].pid == pid;
    }
  }

  // ---- Creating a process

  lemma AllocKeeps(s: State, me: int)
    requires Inv(s) && Enabled(s, Alloc(me))
    ensures Inv(Step(s, Alloc(me)))
  {
    var s' := Step(s, Alloc(me));
    forall i ensures SlotOk(s', i) { assert SlotOk(s, i); }
    forall i, j ensures PairOk(s', i, j) { assert PairOk(s, i, j) && SlotOk(s, i) && SlotOk(s, j); }
    forall k ensures QueueAt(s'.t, k) { assert QueueAt(s.t, k); }
    SameZombies(s, s');
  }

  lemma ForkFailKeeps(s: State, me: int, c: int)
    requires Inv(s) && Enabled(s, ForkFail(me, c))
    ensures Inv(Step(s, ForkFail(me, c)))
  {
    var s' := Step(s, ForkFail(me, c));
    forall i ensures SlotOk(s', i) { assert SlotOk(s, i); }
    forall i, j ensures PairOk(s', i, j) { assert PairOk(s, i, j); }
    forall k ensures QueueAt(s'.t, k) { assert QueueAt(s.t, k); }
    SameZombies(s, s');
  }

  lemma ForkParentKeeps(s: State, me: int, c: int)
    requires Inv(s) && Enabled(s, ForkParent(me, c))
    ensures Inv(Step(s, ForkParent(me, c)))
  {
    var s' := Step(s, ForkParent(me, c));
    forall i ensures SlotOk(s', i) { assert SlotOk(s, i); }
    forall i, j ensures PairOk(s', i, j) { assert PairOk(s, i, j); }
    forall k ensures QueueAt(s'.t, k) { assert QueueAt(s.t, k); }
    SameZombies(s, s');
  }

  /** Making a process that is not queued RUNNABLE and queueing it: fork and yield. */
  lemma QueueOne(s: State, c: int)
    requires Inv(s) && InTable(s.t, c)
    requires s.t.procs[c].status == EMBRYO || s.t.procs[c].status == RUNNING
    requires c != INIT ==> s.t.procs[c].parent != NONE
    ensures Inv(s.(t := SetStatus(s.t, c, RUNNABLE).(queue := s.t.queue + [c])))
  {
    var s' := s.(t := SetStatus(s.t, c, RUNNABLE).(queue := s.t.queue + [c]));
    assert SlotOk(s, c);
    assert c in s'.t.queue;
    forall i ensures SlotOk(s', i) { assert SlotOk(s, i); }
    forall i, j ensures PairOk(s', i, j) { assert PairOk(s, i, j); }
    forall k ensures QueueAt(s'.t, k) { assert QueueAt(s.t, k); }
    forall i, j | 0 <= i < j < |s'.t.queue| ensures s'.t.queue[i] != s'.t.queue[j] { assert QueueAt(s.t, i); }
    SameZombies(s, s');
  }

  // ---- Exiting and reaping

  /** The last part of exit: give the children to init and become a zombie. */
  function Bury(t: Table, me: int): Table
    requires InTable(t, me)
  {
    SetStatus(t.(procs := Reparent(t.procs, me)), me, ZOMBIE)
  }

  lemma {:induction false} SleepersReparent(procs: seq<Proc>, me: int, chan: Chan, n: nat)
    requires n <= |procs|
    ensures Sleepers(Reparent(procs, me), chan, n) == Sleepers(procs, chan, n)
  {
    if n > 0 { SleepersReparent(procs, me, chan, n - 1); }
  }

  /** Waking init before giving it the children comes to the same table. */
  lemma ExitIsBury(t: Table, me: int)
    requires InTable(t, me)
    ensures var t1 := Wake(t, OfProc(t.procs[me].parent));
            var orphan := exists i :: 0 <= i < |t1.procs| && ZombieChild(t1.procs, me, i);
            ExitTable(t, me) == Bury(if orphan then Wake(t1, OfProc(INIT)) else t1, me)
  {
    var t1 := Wake(t, OfProc(t.procs[me].parent));
    SleepersReparent(t1.procs, me, OfProc(INIT), |t1.procs|);
    assert WakeProcs(Reparent(t1.procs, me), OfProc(INIT)) == Reparent(WakeProcs(t1.procs, OfProc(INIT)), me);
  }

  lemma BuryKeeps(s: State, me: int)
    requires Inv(s) && Has(s.t, me, RUNNING) && me != INIT
    requires forall i :: ZombieChild(s.t.procs, me, i) ==> !Sleeps(s.t.procs[INIT], OfProc(INIT))
    requires InTable(s.t, s.t.procs[me].parent) ==>
               !Sleeps(s.t.procs[s.t.procs[me].parent], OfProc(s.t.procs[me].parent))
    ensures Inv(s.(t := Bury(s.t, me), exited := s.exited + {s.t.procs[me].pid}))
  {
    var s' := s.(t := Bury(s.t, me), exited := s.exited + {s.t.procs[me].pid});
    assert SlotOk(s, me);
    forall i ensures SlotOk(s', i) { assert SlotOk(s, i) && PairOk(s, i, me); }
    forall i, j ensures PairOk(s', i, j) {
      assert PairOk(s, i, j) && PairOk(s, i, me) && SlotOk(s, i);
      assert i == INIT ==> !ZombieChild(s.t.procs, me, j) || !Sleeps(s.t.procs[i], OfProc(i));
    }
    forall k ensures QueueAt(s'.t, k) { assert QueueAt(s.t, k); }
    BuryReap(s, me);
  }

  lemma BuryReap(s: State, me: int)
    requires ReapOk(s) && Has(s.t, me, RUNNING) && SlotOk(s, me)
    ensures ReapOk(s.(t := Bury(s.t, me), exited := s.exited + {s.t.procs[me].pid}))
  {
    var s' := s.(t := Bury(s.t, me), exited := s.exited + {s.t.procs[me].pid});
    forall pid | pid in s'.exited && pid !in s'.reaped
      ensures exists i :: Has(s'.t, i, ZOMBIE) && s'.t.procs[i].pid == pid
    {
      if pid == s.t.procs[me].pid {
        assert Has(s'.t, me, ZOMBIE) && s'.t.procs[me].pid == pid;
      } else {
        var i :| Has(s.t, i, ZOMBIE) && s.t.procs[i].pid == pid;
        assert Has(s'.t, i, ZOMBIE) && s'.t.procs[i].pid == pid;
      }
    }
  }

  lemma ExitKeeps(s: State, me: int)
    requires Inv(s) && Enabled(s, Exit(me))
    ensures Inv(Step(s, Exit(me)))
  {
    var parent := s.t.procs[me].parent;
    var s1 := s.(t := Wake(s.t, OfProc(parent)));
    WakeKeeps(s, OfProc(parent));
    var s2 := s1.(t := Wake(s1.t, OfProc(INIT)));
    WakeKeeps(s1, OfProc(INIT));
    ExitIsBury(s.t, me);
    assert SlotOk(s, me);
    if exists i :: 0 <= i < |s1.t.procs| && ZombieChild(s1.t.procs, me, i) {
      BuryKeeps(s2, me);
    } else {
      BuryKeeps(s1, me);
    }
  }

  lemma WaitKeeps(s: State, me: int)
    requires Inv(s) && Enabled(s, Wait(me))
    ensures Inv(Step(s, Wait(me)))
  {
    var z := FirstZombie(s.t.procs, me, 0);
    if z != NONE {
      ReapKeeps(s, me, z);
    } else {
      WaitSleepKeeps(s, me);
    }
  }

  lemma ReapKeeps(s: State, me: int, z: int)
    requires Inv(s) && Enabled(s, Wait(me)) && z == FirstZombie(s.t.procs, me, 0) && z != NONE
    ensures Inv(Step(s, Wait(me)))
  {
    var s' := Step(s, Wait(me));
    assert SlotOk(s, z);
    forall i ensures SlotOk(s', i) { assert SlotOk(s, i) && PairOk(s, i, z); }
    forall i, j ensures PairOk(s', i, j) { assert PairOk(s, i, j); }
    forall k ensures QueueAt(s'.t, k) { assert QueueAt(s.t, k); }
    forall pid | pid in s'.exited && pid !in s'.reaped
      ensures exists i :: Has(s'.t, i, ZOMBIE) && s'.t.procs[i].pid == pid
    {
      var i :| Has(s.t, i, ZOMBIE) && s.t.procs[i].pid == pid;
      assert Has(s'.t, i, ZOMBIE) && s'.t.procs[i].pid == pid;
    }
  }

  lemma WaitSleepKeeps(s: State, me: int)
    requires Inv(s) && Enabled(s, Wait(me)) && FirstZombie(s.t.procs, me, 0) == NONE
    ensures Inv(Step(s, Wait(me)))
  {
    var s' := Step(s, Wait(me));
    forall i ensures SlotOk(s', i) { assert SlotOk(s, i); }
    forall i, j ensures PairOk(s', i, j) {
      assert PairOk(s, i, j);
      if i == me { assert !ZombieChild(s.t.procs, me, j); }
    }
    forall k ensures QueueAt(s'.t, k) { assert QueueAt(s.t, k); }
    SameZombies(s, s');
  }

  // ---- Sleeping, killing, signalling, scheduling

  lemma SleepKeeps(s: State, me: int, id: int)
    requires Inv(s) && Enabled(s, Sleep(me, id))
    ensures Inv(Step(s, Sleep(me, id)))
  {
    var s' := Step(s, Sleep(me, id));
    forall i ensures SlotOk(s', i) { assert SlotOk(s, i); }
    forall i, j ensures PairOk(s', i, j) { assert PairOk(s, i, j); }
    forall k ensures QueueAt(s'.t, k) { assert QueueAt(s.t, k); }
    SameZombies(s, s');
  }

  lemma KillKeeps(s: State, pid: int)
    requires Inv(s)
    ensures Inv(Step(s, Kill(pid)))
  {
    var s' := Step(s, Kill(pid));
    var z := Find(s.t.procs, pid, 0);
    if z != NONE {
      assert SlotOk(s, z);
      forall i ensures SlotOk(s', i) { assert SlotOk(s, i); }
      forall i, j ensures PairOk(s', i, j) { assert PairOk(s, i, j); }
      forall k ensures QueueAt(s'.t, k) { assert QueueAt(s.t, k); }
      forall i, j | 0 <= i < j < |s'.t.queue| ensures s'.t.queue[i] != s'.t.queue[j] { assert QueueAt(s.t, i); }
      SameZombies(s, s');
    }
  }

  /** kill reaches the one process with the pid: it is marked and, if it slept, will run; if it did not sleep, it
      keeps its status and the queue stays as it was. */
  lemma KillReaches(s: State, i: int)
    requires Inv(s) && InTable(s.t, i) && s.t.procs[i].status != UNUSED
    ensures var t' := KillTable(s.t, s.t.procs[i].pid);
      && |t'.procs| == |s.t.procs| && t'.procs[i].killed
      && (s.t.procs[i].status == SLEEPING ==> t'.procs[i].status == RUNNABLE && i in t'.queue)
      && (s.t.procs[i].status != SLEEPING ==> t'.procs[i].status == s.t.procs[i].status && t'.queue == s.t.queue)
      && forall j :: InTable(s.t, j) && j != i ==> t'.procs[j] == s.t.procs[j]
  {
    assert SlotOk(s, i);
    FindsPid(s, i, 0);
  }

  lemma {:induction false} FindsPid(s: State, i: int, k: nat)
    requires Inv(s) && k <= i < |s.t.procs| && s.t.procs[i].pid > 0
    ensures Find(s.t.procs, s.t.procs[i].pid, k) == i
    decreases i - k
  {
    assert PairOk(s, k, i);
    if k < i { FindsPid(s, i, k + 1); }
  }

  lemma SigsendKeeps(s: State, pid: int, sig: int)
    requires Inv(s)
    ensures Inv(Step(s, Sigsend(pid, sig)))
  {
    var s' := Step(s, Sigsend(pid, sig));
    var z := Find(s.t.procs, pid, 0);
    if !IsSignal(sig) || z == NONE { assert s' == s; return; }
    if z in s.t.queue { QueuedAreRunnable(s.t, z); }
    forall i ensures SlotOk(s', i) { assert SlotOk(s, i); }
    forall i, j ensures PairOk(s', i, j) { assert PairOk(s, i, j); }
    forall k ensures QueueAt(s'.t, k) { assert QueueAt(s.t, k); }
    SameZombies(s, s');
  }

  lemma QueuedAreRunnable(t: Table, i: int)
    requires QueueOk(t) && i in t.queue
    ensures Has(t, i, RUNNABLE)
  {
    var k :| 0 <= k < |t.queue| && t.queue[k] == i;
    assert QueueAt(t, k);
  }

  lemma WithoutIs(queue: seq<int>, k: nat, x: int)
    requires k < |queue| && forall i, j :: 0 <= i < j < |queue| ==> queue[i] != queue[j]
    ensures x in Queue.Without(queue, k) <==> x in queue && x != queue[k]
  {
    if x in queue && x != queue[k] {
      var i :| 0 <= i < |queue| && queue[i] == x;
      assert Queue.Without(queue, k)[if i < k then i else i - 1] == x;
    }
  }

  lemma ScheduleKeeps(s: State, k: int)
    requires Inv(s) && Enabled(s, Schedule(k))
    ensures Inv(Step(s, Schedule(k)))
  {
    var s' := Step(s, Schedule(k));
    var p := s.t.queue[k];
    assert QueueAt(s.t, k) && SlotOk(s, p);
    forall i ensures SlotOk(s', i) { assert SlotOk(s, i); WithoutIs(s.t.queue, k, i); }
    forall i, j ensures PairOk(s', i, j) { assert PairOk(s, i, j); }
    forall x ensures QueueAt(s'.t, x) {
      assert QueueAt(s.t, x) && QueueAt(s.t, x + 1);
    }
    SameZombies(s, s');
  }

  lemma StepKeeps(s: State, a: Action)
    requires Inv(s) && Enabled(s, a)
    ensures Inv(Step(s, a))
  {
    match a
    case Alloc(me) => AllocKeeps(s, me);
    case ForkFail(me, c) => ForkFailKeeps(s, me, c);
    case ForkParent(me, c) => ForkParentKeeps(s, me, c);
    case ForkReady(_, c) => QueueOne(s, c);
    case Exit(me) => ExitKeeps(s, me);
    case Wait(me) => WaitKeeps(s, me);
    case Sleep(me, id) => SleepKeeps(s, me, id);
    case Wakeup(id) => WakeKeeps(s, Other(id));
    case Kill(pid) => KillKeeps(s, pid);
    case Sigsend(pid, sig) => SigsendKeeps(s, pid, sig);
    case Yield(me) => assert SlotOk(s, me); QueueOne(s, me);
    case Schedule(k) => ScheduleKeeps(s, k);
  }

  // ---- Whole runs

  ghost predicate Runs(s: State, run: seq<Action>)
    decreases |run|
  {
    run == [] || (Enabled(s, run[0]) && Runs(Step(s, run[0]), run[1..]))
  }

  ghost function After(s: State, run: seq<Action>): State
    requires Runs(s, run)
    decreases |run|
  {
    if run == [] then s else After(Step(s, run[0]), run[1..])
  }

  lemma {:induction false} InvAlways(s: State, run: seq<Action>)
    requires Inv(s) && Runs(s, run)
    ensures Inv(After(s, run))
    decreases |run|
  {
    if run != [] {
      StepKeeps(s, run[0]);
      InvAlways(Step(s, run[0]), run[1..]);
    }
  }

  /** From boot, over every run: parents are alive, nobody sleeps in wait with a zombie child,
      a pid is reaped at most once and, between exit and reaping, is a zombie with a live parent. */
  lemma LifecycleSafe(s: State, run: seq<Action>)
    requires Boot(s) && Runs(s, run)
    ensures var t := After(s, run).t;
      && (forall i :: InTable(t, i) && t.procs[i].parent != NONE ==>
            InTable(t, t.procs[i].parent) && Alive(t.procs[t.procs[i].parent]))
      && (forall i, j :: InTable(t, i) && InTable(t, j) && Sleeps(t.procs[i], OfProc(i)) && t.procs[j].parent == i ==>
            t.procs[j].status != ZOMBIE)
    ensures var s' := After(s, run);
      && (forall i, j :: 0 <= i < j < |s'.reaped| ==> s'.reaped[i] != s'.reaped[j])
      && (forall pid :: pid in s'.reaped ==> pid in s'.exited)
      && (forall pid :: pid in s'.exited && pid !in s'.reaped ==> AwaitsReaping(s'.t, pid))
  {
    BootOk(s);
    InvAlways(s, run);
    var s' := After(s, run);
    var t := s'.t;
    forall i | InTable(t, i) && t.procs[i].parent != NONE
      ensures InTable(t, t.procs[i].parent) && Alive(t.procs[t.procs[i].parent])
    {
      assert SlotOk(s', i);
    }
    forall i, j | InTable(t, i) && InTable(t, j) && Sleeps(t.procs[i], OfProc(i)) && t.procs[j].parent == i
      ensures t.procs[j].status != ZOMBIE
    {
      assert PairOk(s', i, j);
    }
    forall pid | pid in s'.exited && pid !in s'.reaped ensures AwaitsReaping(t, pid) {
      var i :| Has(t, i, ZOMBIE) && t.procs[i].pid == pid;
      assert SlotOk(s', i);
    }
  }

  /** A zombie in the table that a live process can reap. */
  ghost predicate AwaitsReaping(t: Table, pid: int)
  {
    exists i :: Has(t, i, ZOMBIE) && t.procs[i].pid == pid
                && InTable(t, t.procs[i].parent) && Alive(t.procs[t.procs[i].parent])
  }

  /** The queue holds every RUNNABLE process, once, and nobody else. */
  ghost predicate QueueExact(t: Table)
  {
    QueueOk(t) && forall i :: InTable(t, i) ==> (i in t.queue <==> t.procs[i].status == RUNNABLE)
  }

  predicate WakesSleeper(s: State, a: Action)
  {
    && a.Sigsend? && IsSignal(a.sig)
    && Find(s.t.procs, a.pid, 0) != NONE && s.t.procs[Find(s.t.procs, a.pid, 0)].status == SLEEPING
  }

  ghost predicate NoSleeperSignalled(s: State, run: seq<Action>)
    requires Runs(s, run)
    decreases |run|
  {
    run != [] ==> !WakesSleeper(s, run[0]) && NoSleeperSignalled(Step(s, run[0]), run[1..])
  }

  lemma StrayStep(s: State, a: Action)
    requires Enabled(s, a)
    ensures s.stray <= Step(s, a).stray
    ensures Step(s, a).stray == s.stray || WakesSleeper(s, a)
    ensures WakesSleeper(s, a) ==> Find(s.t.procs, a.pid, 0) in Step(s, a).stray
  {
  }

  lemma {:induction false} StraysTell(s: State, run: seq<Action>)
    requires Runs(s, run)
    ensures s.stray <= After(s, run).stray
    ensures After(s, run).stray == {} <==> s.stray == {} && NoSleeperSignalled(s, run)
    decreases |run|
  {
    if run != [] {
      StrayStep(s, run[0]);
      StraysTell(Step(s, run[0]), run[1..]);
    }
  }

  /** A process that sigsend woke stays RUNNABLE and off the queue for ever: it never runs again. */
  lemma StrayForever(s: State, run: seq<Action>, i: int)
    requires Inv(s) && Runs(s, run) && i in s.stray && InTable(s.t, i)
    ensures var t := After(s, run).t; Has(t, i, RUNNABLE) && i !in t.queue
  {
    InvAlways(s, run);
    StraysTell(s, run);
    SameLength(s, run);
    assert SlotOk(After(s, run), i);
  }

  lemma {:induction false} SameLength(s: State, run: seq<Action>)
    requires Runs(s, run)
    ensures |After(s, run).t.procs| == |s.t.procs|
    decreases |run|
  {
    if run != [] { SameLength(Step(s, run[0]), run[1..]); }
  }

  /** The queue is exactly the RUNNABLE processes, on precisely the runs in which sigsend woke no sleeper. */
  lemma QueueExactIff(s: State, run: seq<Action>)
    requires Boot(s) && Runs(s, run)
    ensures QueueOk(After(s, run).t)
    ensures QueueExact(After(s, run).t) <==> NoSleeperSignalled(s, run)
  {
    BootOk(s);
    InvAlways(s, run);
    StraysTell(s, run);
    StraysInTable(s, run);
    var s' := After(s, run);
    if forall i :: i !in s'.stray {
      assert s'.stray == {};
      forall i | InTable(s'.t, i) ensures i in s'.t.queue <==> s'.t.procs[i].status == RUNNABLE {
        assert SlotOk(s', i);
        if i in s'.t.queue { QueuedAreRunnable(s'.t, i); }
      }
    } else {
      var i :| i in s'.stray;
      assert SlotOk(s', i);
    }
  }

  lemma {:induction false} StraysInTable(s: State, run: seq<Action>)
    requires Runs(s, run) && forall i :: i in s.stray ==> InTable(s.t, i)
    ensures forall i :: i in After(s, run).stray ==> InTable(After(s, run).t, i)
    decreases |run|
  {
    if run != [] {
      StraysInTable(Step(s, run[0]), run[1..]);
    }
  }

  lemma ThreeSteps(s: State, a: Action, b: Action, c: Action)
    requires Enabled(s, a) && Enabled(Step(s, a), b) && Enabled(Step(Step(s, a), b), c)
    ensures Runs(s, [a, b, c]) && After(s, [a, b, c]) == Step(Step(Step(s, a), b), c)
  {
    hide Step, Enabled;
    var s1 := Step(s, a);
    var s2 := Step(s1, b);
    var s3 := Step(s2, c);
    assert [a, b, c][1..] == [b, c] && [b, c][1..] == [c] && [c][1..] == [];
    assert Runs(s3, []) && After(s3, []) == s3;
    assert Runs(s2, [c]) && After(s2, [c]) == s3;
    assert Runs(s1, [b, c]) && After(s1, [b, c]) == s3;
  }

  /** Init runs, sleeps, and is sent a signal: it is RUNNABLE, and the queue is empty. */
  lemma StrayExample(s: State)
    requires Boot(s)
    ensures var run := [Schedule(0), Sleep(INIT, 5), Sigsend(1, 2)];
      Runs(s, run) && var t := After(s, run).t; Has(t, INIT, RUNNABLE) && t.queue == [] && !QueueExact(t)
  {
    var s1 := Step(s, Schedule(0));
    assert s1.t.queue == [] && Has(s1.t, INIT, RUNNING) && s1.t.procs[INIT].pid == 1;
    var s2 := Step(s1, Sleep(INIT, 5));
    assert s2.t.queue == [] && Has(s2.t, INIT, SLEEPING) && s2.t.procs[INIT].pid == 1;
    assert Find(s2.t.procs, 1, 0) == INIT;
    var s3 := Step(s2, Sigsend(1, 2));
    assert s3.t.queue == [] && Has(s3.t, INIT, RUNNABLE);
    ThreeSteps(s, Schedule(0), Sleep(INIT, 5), Sigsend(1, 2));
    hide Step, Runs, After;
    assert InTable(s3.t, INIT) && INIT !in s3.t.queue;
  }
}
