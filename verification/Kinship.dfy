/** Who is whose child: over every run of the process table, a child belongs to the process that forked it, and to
    init once that process has exited; only that one reaps it.
 */
module Kinship {
  import opened Lifecycle

  const INIT_PID := 1

  /** The parent of slot i is its forker, or init if the forker has exited. */
  predicate RightParent(s: State, i: int)
  {
    && InTable(s.t, i) && InTable(s.t, s.t.procs[i].parent) && s.t.procs[i].pid in s.forks
    && var forker := s.forks[s.t.procs[i].pid];
       if forker in s.exited then s.t.procs[i].parent == INIT
       else s.t.procs[s.t.procs[i].parent].pid == forker
  }

  predicate ChildOk(s: State, i: int)
  {
    InTable(s.t, i) ==>
      var p := s.t.procs[i];
      && (i == INIT ==> p.pid == INIT_PID)
      && (i != INIT && p.status != UNUSED ==> p.pid in s.forks)
      && (p.parent != NONE ==> RightParent(s, i))
  }

  /** pid was reaped by its forker, or by init after its forker had exited. */
  predicate RightReaper(s: State, pid: int)
  {
    && pid in s.forks && pid in s.reapers
    && (s.reapers[pid] == s.forks[pid] || (s.reapers[pid] == INIT_PID && s.forks[pid] in s.exited))
  }

  ghost predicate Kin(s: State)
  {
    && (forall i {:trigger ChildOk(s, i)} :: ChildOk(s, i))
    && (forall pid :: pid in s.forks ==> pid < s.t.nextpid)
    && INIT_PID !in s.exited
    && (forall pid :: pid in s.reaped ==> RightReaper(s, pid))
  }

  lemma BootKin(s: State)
    requires Boot(s)
    ensures Kin(s)
  {
    forall i ensures ChildOk(s, i) { }
  }

  /** Steps that leave pids, parents and the record alone. */
  lemma SameKin(s: State, s': State)
    requires Kin(s) && s'.exited == s.exited && s'.reaped == s.reaped && s'.forks == s.forks && s'.reapers == s.reapers
    requires |s'.t.procs| == |s.t.procs| && s'.t.nextpid == s.t.nextpid
    requires forall i {:trigger s'.t.procs[i]} :: InTable(s.t, i) ==>
      && s'.t.procs[i].pid == s.t.procs[i].pid && s'.t.procs[i].parent == s.t.procs[i].parent
      && (s.t.procs[i].status == UNUSED ==> s'.t.procs[i].status == UNUSED)
    ensures Kin(s')
  {
    forall i ensures ChildOk(s', i) { assert ChildOk(s, i); }
    forall pid | pid in s'.reaped ensures RightReaper(s', pid) { assert RightReaper(s, pid); }
  }

  lemma AllocKin(s: State, me: int)
    requires Inv(s) && Kin(s) && Enabled(s, Alloc(me))
    ensures Kin(Step(s, Alloc(me)))
  {
    var s' := Step(s, Alloc(me));
    assert SlotOk(s, INIT);
    forall i ensures ChildOk(s', i) { assert ChildOk(s, i) && SlotOk(s, i); }
    forall pid | pid in s'.reaped ensures RightReaper(s', pid) { assert RightReaper(s, pid); }
  }

  lemma ForkParentKin(s: State, me: int, c: int)
    requires Inv(s) && Kin(s) && Enabled(s, ForkParent(me, c))
    ensures Kin(Step(s, ForkParent(me, c)))
  {
    var s' := Step(s, ForkParent(me, c));
    assert SlotOk(s, me) && SlotOk(s, c);
    forall i ensures ChildOk(s', i) { assert ChildOk(s, i) && SlotOk(s, i); }
    forall pid | pid in s'.reaped ensures RightReaper(s', pid) { assert RightReaper(s, pid); }
  }

  /** exit changes no pid, and the parents of its children only. */
  lemma ExitParents(t: Table, me: int, i: int)
    requires InTable(t, me) && InTable(t, i)
    ensures var t' := ExitTable(t, me);
      && |t'.procs| == |t.procs| && t'.nextpid == t.nextpid
      && t'.procs[i].pid == t.procs[i].pid
      && t'.procs[i].parent == (if t.procs[i].parent == me then INIT else t.procs[i].parent)
      && (t.procs[i].status == UNUSED && i != me ==> t'.procs[i].status == UNUSED)
  {
  }

  lemma ExitKin(s: State, me: int)
    requires Inv(s) && Kin(s) && Enabled(s, Exit(me))
    ensures Kin(Step(s, Exit(me)))
  {
    var s' := Step(s, Exit(me));
    assert ChildOk(s, INIT) && PairOk(s, INIT, me) && SlotOk(s, me);
    ExitParents(s.t, me, me);
    forall i ensures ChildOk(s', i) {
      assert ChildOk(s, i) && SlotOk(s, i);
      if InTable(s.t, i) {
        var parent := s.t.procs[i].parent;
        ExitParents(s.t, me, i);
        ExitParents(s.t, me, INIT);
        if parent != NONE {
          ExitParents(s.t, me, parent);
          assert PairOk(s, parent, me) && SlotOk(s, parent);
        }
        hide ExitTable, Inv;
      }
    }
    forall pid | pid in s'.reaped ensures RightReaper(s', pid) { assert RightReaper(s, pid); }
  }

  /** wait reaps a child of its own. */
  lemma ReapKin(s: State, me: int)
    requires Inv(s) && Kin(s) && Enabled(s, Wait(me)) && FirstZombie(s.t.procs, me, 0) != NONE
    ensures Kin(Step(s, Wait(me)))
  {
    var s' := Step(s, Wait(me));
    var z := FirstZombie(s.t.procs, me, 0);
    assert ChildOk(s, z) && SlotOk(s, z) && ChildOk(s, INIT) && SlotOk(s, me);
    forall i ensures ChildOk(s', i) { assert ChildOk(s, i) && SlotOk(s, i); }
    forall pid | pid in s'.reaped ensures RightReaper(s', pid) {
      if pid in s.reaped { assert RightReaper(s, pid); }
    }
  }

  lemma ForkFailKin(s: State, me: int, c: int)
    requires Inv(s) && Kin(s) && Enabled(s, ForkFail(me, c))
    ensures Kin(Step(s, ForkFail(me, c)))
  {
    var s' := Step(s, ForkFail(me, c));
    forall i ensures ChildOk(s', i) { assert ChildOk(s, i); }
    forall pid | pid in s'.reaped ensures RightReaper(s', pid) { assert RightReaper(s, pid); }
  }

  /** Every other step. */
  lemma RestKin(s: State, a: Action)
    requires Inv(s) && Kin(s) && Enabled(s, a)
    requires !a.Alloc? && !a.ForkFail? && !a.ForkParent? && !a.Exit?
    requires a.Wait? ==> FirstZombie(s.t.procs, a.me, 0) == NONE
    ensures Kin(Step(s, a))
  {
    if a.Schedule? { assert QueueAt(s.t, a.k); }
    SameKin(s, Step(s, a));
  }

  lemma StepKin(s: State, a: Action)
    requires Inv(s) && Kin(s) && Enabled(s, a)
    ensures Kin(Step(s, a))
  {
    hide Inv, Kin, Step;
    if a.Alloc? {
      AllocKin(s, a.me);
    } else if a.ForkParent? {
      ForkParentKin(s, a.me, a.c);
    } else if a.Exit? {
      ExitKin(s, a.me);
    } else if a.Wait? && FirstZombie(s.t.procs, a.me, 0) != NONE {
      ReapKin(s, a.me);
    } else if a.ForkFail? {
      ForkFailKin(s, a.me, a.c);
    } else {
      RestKin(s, a);
    }
  }

  lemma {:induction false} KinAlways(s: State, run: seq<Action>)
    requires Inv(s) && Kin(s) && Runs(s, run)
    ensures Inv(After(s, run)) && Kin(After(s, run))
    decreases |run|
  {
    hide Inv, Kin, Step;
    if run != [] {
      StepKeeps(s, run[0]);
      StepKin(s, run[0]);
      KinAlways(Step(s, run[0]), run[1..]);
    }
  }

  /** From boot, over every run: a child that has not been reaped has its forker as its parent until the forker exits,
      and init from then on; and whoever was reaped was reaped by its forker, or by init after the forker's exit. */
  lemma FamilySafe(s: State, run: seq<Action>)
    requires Boot(s) && Runs(s, run)
    ensures var s' := After(s, run);
      && (forall i :: InTable(s'.t, i) && i != INIT && (Alive(s'.t.procs[i]) || s'.t.procs[i].status == ZOMBIE) ==>
            RightParent(s', i))
      && (forall pid :: pid in s'.reaped ==> RightReaper(s', pid))
  {
    BootOk(s);
    BootKin(s);
    KinAlways(s, run);
    var s' := After(s, run);
    forall i | InTable(s'.t, i) && i != INIT && (Alive(s'.t.procs[i]) || s'.t.procs[i].status == ZOMBIE)
      ensures RightParent(s', i)
    {
      assert ChildOk(s', i) && SlotOk(s', i);
    }
  }

  /** The record of forks is made once and for good: a step adds the pid that fork hands out, with the pid of the
      process that called it, and nothing else. */
  lemma ForkRecorded(s: State, a: Action)
    requires Inv(s) && Kin(s) && Enabled(s, a)
    ensures var s' := Step(s, a); var z := FirstUnused(s.t.procs, 0);
      && (forall pid :: pid in s.forks ==> pid in s'.forks && s'.forks[pid] == s.forks[pid])
      && (forall pid :: pid in s'.forks && pid !in s.forks ==>
            a.Alloc? && z != NONE && s'.forks[pid] == s.t.procs[a.me].pid
            && Has(s'.t, z, EMBRYO) && s'.t.procs[z].pid == pid)
  {
  }

  lemma {:induction false} ForksStay(s: State, run: seq<Action>, pid: int)
    requires Inv(s) && Kin(s) && Runs(s, run) && pid in s.forks
    ensures pid in After(s, run).forks && After(s, run).forks[pid] == s.forks[pid]
    decreases |run|
  {
    hide Inv, Kin, Step;
    if run != [] {
      StepKeeps(s, run[0]);
      StepKin(s, run[0]);
      ForkRecorded(s, run[0]);
      ForksStay(Step(s, run[0]), run[1..], pid);
    }
  }
}
