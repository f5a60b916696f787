/** What single steps of the process table do to one process: how it falls asleep and wakes, its place in the run
    queue, and the marks that kill and sigsend leave on it.
 */
module ProcSteps {
  import opened Lifecycle

  // ---- Status

  /** exit marks nobody, and of those awake it changes only the status of the caller. */
  lemma ExitSpares(t: Table, me: int, i: int)
    requires Has(t, me, RUNNING) && InTable(t, i)
    ensures var p := ExitTable(t, me).procs;
      && |p| == |t.procs| && p[i].pending == t.procs[i].pending && p[i].killed == t.procs[i].killed
      && (t.procs[i].status != SLEEPING ==> p[i].status == if i == me then ZOMBIE else t.procs[i].status)
  {
  }

  /** The steps that end the sleep of slot i. */
  ghost predicate EndsSleep(s: State, a: Action, i: int)
    requires InTable(s.t, i) && CanTake(s.t, a)
  {
    var p := s.t.procs[i];
    match a
    case Wakeup(id) => p.chan == Other(id)
    case Kill(pid) => p.pid == pid
    case Sigsend(pid, sig) => p.pid == pid && IsSignal(sig)
    case Exit(me) =>
      p.chan == OfProc(i) && (s.t.procs[me].parent == i || (i == INIT && exists j :: ZombieChild(s.t.procs, me, j)))
    case _ => false
  }

  /** wakeup, kill, sigsend and exit end exactly the sleeps they should. */
  lemma SleepEndsIff(s: State, a: Action, i: int)
    requires Inv(s) && Enabled(s, a) && Has(s.t, i, SLEEPING)
    ensures var t' := Step(s, a).t;
      InTable(t', i) && t'.procs[i].status == if EndsSleep(s, a, i) then RUNNABLE else SLEEPING
  {
    assert SlotOk(s, i);
    if a.Kill? || a.Sigsend? {
      FindsPid(s, i, 0);
    } else if a.Exit? {
      ExitEndsSleep(s, a.me, i);
    } else if a.Schedule? {
      assert QueueAt(s.t, a.k);
    }
    hide ExitTable, Inv, SlotOk, QueueAt;
  }

  lemma ExitEndsSleep(s: State, me: int, i: int)
    requires Inv(s) && Enabled(s, Exit(me)) && Has(s.t, i, SLEEPING)
    ensures var t' := ExitTable(s.t, me);
      InTable(t', i) && t'.procs[i].status == if EndsSleep(s, Exit(me), i) then RUNNABLE else SLEEPING
  {
    ExitIsBury(s.t, me);
    assert SlotOk(s, i) && SlotOk(s, me);
    var t1 := Wake(s.t, OfProc(s.t.procs[me].parent));
    forall j ensures ZombieChild(t1.procs, me, j) <==> ZombieChild(s.t.procs, me, j) { }
  }

  /** The moves between states, and the step that makes each. */
  ghost predicate Moves(s: State, a: Action, i: int, from: Status, to: Status)
    requires InTable(s.t, i) && CanTake(s.t, a)
  {
    match a
    case Alloc(_) => from == UNUSED && to == EMBRYO && FirstUnused(s.t.procs, 0) == i
    case ForkFail(_, c) => i == c && from == EMBRYO && to == UNUSED
    case ForkReady(_, c) => i == c && from == EMBRYO && to == RUNNABLE
    case Exit(me) => if i == me then from == RUNNING && to == ZOMBIE else from == SLEEPING && to == RUNNABLE
    case Wait(me) =>
      var z := FirstZombie(s.t.procs, me, 0);
      if z != NONE then i == z && from == ZOMBIE && to == UNUSED
      else i == me && HasKids(s.t.procs, me) && !s.t.procs[me].killed && from == RUNNING && to == SLEEPING
    case Sleep(me, _) => i == me && from == RUNNING && to == SLEEPING
    case Wakeup(_) => from == SLEEPING && to == RUNNABLE
    case Kill(_) => from == SLEEPING && to == RUNNABLE
    case Sigsend(_, _) => from == SLEEPING && to == RUNNABLE
    case Yield(me) => i == me && from == RUNNING && to == RUNNABLE
    case Schedule(k) => i == s.t.queue[k] && from == RUNNABLE && to == RUNNING
    case ForkParent(_, _) => false
  }

  /** No process changes its status in any other way. */
  lemma StatusMoves(s: State, a: Action, i: int)
    requires Inv(s) && Enabled(s, a) && InTable(s.t, i)
    ensures var t' := Step(s, a).t;
      InTable(t', i) && (t'.procs[i].status != s.t.procs[i].status ==>
        Moves(s, a, i, s.t.procs[i].status, t'.procs[i].status))
  {
    if s.t.procs[i].status == SLEEPING {
      SleepEndsIff(s, a, i);
      hide Step;
    } else if a.Schedule? {
      assert QueueAt(s.t, a.k);
    } else if a.Exit? {
      ExitSpares(s.t, a.me, i);
    }
    hide ExitTable, Inv;
  }

  /** A process that goes to sleep sleeps on what it asked for: a later wakeup of that and no other ends it. */
  lemma SleepsOnItsChannel(s: State, me: int, id: int, id': int)
    requires Inv(s) && Enabled(s, Sleep(me, id))
    ensures var s1 := Step(s, Sleep(me, id));
      && Has(s1.t, me, SLEEPING) && me !in s1.t.queue
      && var t' := Step(s1, Wakeup(id')).t;
         if id' == id then Has(t', me, RUNNABLE) && me in t'.queue else Has(t', me, SLEEPING) && me !in t'.queue
  {
    var s1 := Step(s, Sleep(me, id));
    if me in s.t.queue { QueuedAreRunnable(s.t, me); }
    StepKeeps(s, Sleep(me, id));
    WakesExactly(s1.t, Other(id'), me);
  }

  // ---- The queue

  /** Newcomers go to the end of the queue, and the scheduler takes out the one it chose: nobody overtakes. */
  lemma QueueFifo(s: State, a: Action)
    requires Enabled(s, a)
    ensures var q, q' := s.t.queue, Step(s, a).t.queue;
      if a.Schedule? then q' == q[..a.k] + q[a.k + 1..] else q <= q'
  {
  }

  // ---- Marks

  /** sigsend reaches the one process with the pid: the signal is pending, with those that were pending before. */
  lemma SigsendReaches(s: State, i: int, sig: int)
    requires Inv(s) && InTable(s.t, i) && s.t.procs[i].status != UNUSED && IsSignal(sig)
    ensures var t' := SigsendTable(s.t, s.t.procs[i].pid, sig); var p := s.t.procs[i];
      && |t'.procs| == |s.t.procs| && t'.queue == s.t.queue
      && (forall x :: x in t'.procs[i].pending <==> x == sig || x in p.pending)
      && t'.procs[i].killed == p.killed && t'.procs[i].parent == p.parent && t'.procs[i].pid == p.pid
      && t'.procs[i].status == (if p.status == SLEEPING then RUNNABLE else p.status)
      && forall j :: InTable(s.t, j) && j != i ==> t'.procs[j] == s.t.procs[j]
  {
    assert SlotOk(s, i);
    FindsPid(s, i, 0);
  }

  /** The signals that the run sends to whoever is in slot i. */
  ghost function Sent(s: State, run: seq<Action>, i: int): set<int>
    requires Runs(s, run)
    decreases |run|
  {
    if run == [] then {}
    else
      (if run[0].Sigsend? && IsSignal(run[0].sig) && Find(s.t.procs, run[0].pid, 0) == i then {run[0].sig} else {})
      + Sent(Step(s, run[0]), run[1..], i)
  }

  lemma PendingStep(s: State, a: Action, i: int)
    requires Enabled(s, a) && InTable(s.t, i)
    ensures InTable(Step(s, a).t, i)
    ensures Step(s, a).t.procs[i].pending ==
      s.t.procs[i].pending + if a.Sigsend? && IsSignal(a.sig) && Find(s.t.procs, a.pid, 0) == i then {a.sig} else {}
  {
    if a.Exit? { ExitSpares(s.t, a.me, i); }
    hide ExitTable;
  }

  /** Over every run a slot has pending exactly what it had and what it was sent: no step forgets a signal, so a
      process starts with those of the slot's earlier owners. */
  lemma {:induction false} PendingIs(s: State, run: seq<Action>, i: int)
    requires Runs(s, run) && InTable(s.t, i)
    ensures InTable(After(s, run).t, i)
    ensures After(s, run).t.procs[i].pending == s.t.procs[i].pending + Sent(s, run, i)
    decreases |run|
  {
    hide Step;
    if run != [] {
      PendingStep(s, run[0], i);
      PendingIs(Step(s, run[0]), run[1..], i);
    }
  }

  /** wait frees the slot for good: it has no pid and no parent, and the mark of kill is gone; no other slot changes. */
  lemma ReapClears(s: State, me: int)
    requires Enabled(s, Wait(me)) && FirstZombie(s.t.procs, me, 0) != NONE
    ensures var z := FirstZombie(s.t.procs, me, 0); var t' := Step(s, Wait(me)).t;
      && ZombieChild(s.t.procs, me, z) && (forall j :: 0 <= j < z ==> !ZombieChild(s.t.procs, me, j))
      && Has(t', z, UNUSED) && t'.procs[z].pid == 0 && t'.procs[z].parent == NONE && !t'.procs[z].killed
      && |t'.procs| == |s.t.procs| && t'.queue == s.t.queue
      && forall j :: InTable(t', j) && j != z ==> t'.procs[j] == s.t.procs[j]
  {
    ZombieIsFirst(s.t.procs, me, 0);
  }

  lemma {:induction false} ZombieIsFirst(procs: seq<Proc>, me: int, i: nat)
    requires i <= |procs|
    ensures forall j :: i <= j < |procs| && (FirstZombie(procs, me, i) == NONE || j < FirstZombie(procs, me, i)) ==>
      !ZombieChild(procs, me, j)
    decreases |procs| - i
  {
    if i < |procs| { ZombieIsFirst(procs, me, i + 1); }
  }

  predicate Unmarked(s: State, i: int)
  {
    Has(s.t, i, UNUSED) ==> !s.t.procs[i].killed
  }

  /** No free slot carries the mark of kill, so the next process to get it does not start out killed. */
  ghost predicate Clean(s: State)
  {
    forall i {:trigger Unmarked(s, i)} :: Unmarked(s, i)
  }

  /** kill finding a free slot, or fork giving up a child that was killed: neither clears the mark. */
  predicate Taints(s: State, a: Action)
    requires Enabled(s, a)
  {
    match a
    case Kill(pid) => Find(s.t.procs, pid, 0) != NONE && s.t.procs[Find(s.t.procs, pid, 0)].status == UNUSED
    case ForkFail(_, c) => s.t.procs[c].killed
    case _ => false
  }

  /** Exactly those steps spoil it. */
  lemma TaintsExactly(s: State, a: Action)
    requires Inv(s) && Clean(s) && Enabled(s, a)
    ensures Clean(Step(s, a)) <==> !Taints(s, a)
  {
    var s' := Step(s, a);
    if Taints(s, a) {
      assert !Unmarked(s', if a.Kill? then Find(s.t.procs, a.pid, 0) else a.c);
    } else {
      forall i ensures Unmarked(s', i) {
        assert Unmarked(s, i);
        if InTable(s.t, i) {
          StatusMoves(s, a, i);
          if a.Exit? { ExitSpares(s.t, a.me, i); }
        }
        hide ExitTable, Inv;
      }
    }
  }

  ghost predicate NeverTaints(s: State, run: seq<Action>)
    requires Runs(s, run)
    decreases |run|
  {
    run != [] ==> !Taints(s, run[0]) && NeverTaints(Step(s, run[0]), run[1..])
  }

  lemma {:induction false} CleanAlways(s: State, run: seq<Action>)
    requires Inv(s) && Clean(s) && Runs(s, run) && NeverTaints(s, run)
    ensures Clean(After(s, run))
    decreases |run|
  {
    hide Inv, Clean, Step, Taints;
    if run != [] {
      TaintsExactly(s, run[0]);
      StepKeeps(s, run[0]);
      CleanAlways(Step(s, run[0]), run[1..]);
    }
  }

  /** From boot, on every run without such a step, a new process does not start out killed. */
  lemma BornUnkilled(s: State, run: seq<Action>, me: int)
    requires Boot(s) && Runs(s, run) && NeverTaints(s, run) && Enabled(After(s, run), Alloc(me))
    requires FirstUnused(After(s, run).t.procs, 0) != NONE
    ensures var s' := After(s, run); var z := FirstUnused(s'.t.procs, 0);
      Has(Step(s', Alloc(me)).t, z, EMBRYO) && !Step(s', Alloc(me)).t.procs[z].killed
  {
    BootOk(s);
    forall i ensures Unmarked(s, i) { }
    CleanAlways(s, run);
    var s' := After(s, run);
    assert Unmarked(s', FirstUnused(s'.t.procs, 0));
  }

  /** kill(0) finds a free slot, since free slots have pid 0: the next child is born killed. */
  lemma BornKilledExample(s: State)
    requires Boot(s) && |s.t.procs| > 1
    ensures var run := [Schedule(0), Kill(0), Alloc(INIT)];
      Runs(s, run) && var t := After(s, run).t; Has(t, 1, EMBRYO) && t.procs[1].pid == 2 && t.procs[1].killed
  {
    var s1 := Step(s, Schedule(0));
    assert Has(s1.t, INIT, RUNNING) && s1.t.procs[INIT].pid == 1 && s1.t.procs[1] == s.t.procs[1] && |s1.t.procs| > 1;
    assert Find(s1.t.procs, 0, 1) == 1;
    assert Find(s1.t.procs, 0, 0) == 1;
    var s2 := Step(s1, Kill(0));
    assert Has(s2.t, INIT, RUNNING) && Has(s2.t, 1, UNUSED) && s2.t.procs[1].killed && s2.t.nextpid == 2;
    assert FirstUnused(s2.t.procs, 1) == 1;
    assert FirstUnused(s2.t.procs, 0) == 1;
    ThreeSteps(s, Schedule(0), Kill(0), Alloc(INIT));
    hide Runs, After;
  }
}
