/** proc.c's ptable with its run queue: the loops over the table, against the operations of Lifecycle. */
module ProcTable {
  import opened Lifecycle
  import Queue = RunQueue
  import Lottery

  lemma {:induction false} SameSleepers(procs: seq<Proc>, procs': seq<Proc>, chan: Chan, n: nat)
    requires n <= |procs| == |procs'|
    requires forall i :: 0 <= i < |procs| ==> Sleeps(procs[i], chan) == Sleeps(procs'[i], chan)
    ensures Sleepers(procs', chan, n) == Sleepers(procs, chan, n)
  {
    if n > 0 { SameSleepers(procs, procs', chan, n - 1); }
  }

  // ---- The loop of wakeup1

  /** The table t' when the loop has passed p slots of t. */
  ghost predicate Waking(t: Table, t': Table, chan: Chan, p: int)
  {
    && 0 <= p <= |t.procs| == |t'.procs| && t'.nextpid == t.nextpid
    && t'.procs == WakeProcs(t.procs, chan)[..p] + t.procs[p..]
    && t'.queue == t.queue + Sleepers(t.procs, chan, p)
  }

  lemma WakingStart(t: Table, chan: Chan)
    ensures Waking(t, t, chan, 0)
  {
  }

  lemma WakingStep(t: Table, t': Table, chan: Chan, p: nat)
    requires QueueOk(t) && Waking(t, t', chan, p) && InTable(t', p)
    ensures if Sleeps(t'.procs[p], chan)
            then p !in t'.queue
                 && Waking(t, SetStatus(t', p, RUNNABLE).(queue := t'.queue + [p]), chan, p + 1)
            else Waking(t, t', chan, p + 1)
  {
    var woken := WakeProcs(t.procs, chan);
    assert t'.procs[p] == t.procs[p];
    assert t'.procs[p := woken[p]] == woken[..p + 1] + t.procs[p + 1..];
    if Sleeps(t.procs[p], chan) {
      if p in t.queue { QueuedAreRunnable(t, p); }
      SleepersAre(t.procs, chan, p, p);
    } else {
      assert t'.procs[p := woken[p]] == t'.procs;
    }
  }

  lemma WakingEnd(t: Table, t': Table, chan: Chan)
    requires QueueOk(t) && Waking(t, t', chan, |t.procs|)
    ensures t' == Wake(t, chan) && QueueOk(t')
  {
    WakeQueue(t, chan);
  }

  // ---- The loop of exit

  function ReparentUpTo(procs: seq<Proc>, me: int, n: int): (r: seq<Proc>)
    ensures |r| == |procs|
  {
    seq(|procs|, i requires 0 <= i < |procs| =>
      if i < n && procs[i].parent == me then procs[i].(parent := INIT) else procs[i])
  }

  ghost predicate ZombieBelow(procs: seq<Proc>, me: int, n: int)
  {
    exists i :: 0 <= i < n && ZombieChild(procs, me, i)
  }

  /** The table when exit's loop has passed n slots. */
  ghost function Passed(t: Table, me: int, n: int): (r: Table)
    ensures |r.procs| == |t.procs|
  {
    var t' := t.(procs := ReparentUpTo(t.procs, me, n));
    if ZombieBelow(t.procs, me, n) then Wake(t', OfProc(INIT)) else t'
  }

  function WithParent(t: Table, i: int, parent: int): Table
    requires InTable(t, i)
  {
    t.(procs := t.procs[i := t.procs[i].(parent := parent)])
  }

  /** Parents do not matter to waking. */
  lemma WakeIgnoresParents(t: Table, t': Table, chan: Chan)
    requires |t.procs| == |t'.procs| && t.queue == t'.queue
    requires forall i :: 0 <= i < |t.procs| ==> t'.procs[i] == t.procs[i].(parent := t'.procs[i].parent)
    ensures Wake(t', chan).queue == Wake(t, chan).queue
    ensures forall i :: 0 <= i < |t.procs| ==>
      Wake(t', chan).procs[i] == Wake(t, chan).procs[i].(parent := t'.procs[i].parent)
  {
    SameSleepers(t.procs, t'.procs, chan, |t.procs|);
  }

  lemma WakeTwice(t: Table, chan: Chan)
    ensures Wake(Wake(t, chan), chan) == Wake(t, chan)
  {
    var t' := Wake(t, chan);
    NoSleepers(t'.procs, chan, |t'.procs|);
    assert WakeProcs(t'.procs, chan) == t'.procs;
  }

  lemma {:induction false} NoSleepers(procs: seq<Proc>, chan: Chan, n: nat)
    requires n <= |procs| && forall i :: 0 <= i < n ==> !Sleeps(procs[i], chan)
    ensures Sleepers(procs, chan, n) == []
  {
    if n > 0 { NoSleepers(procs, chan, n - 1); }
  }

  lemma PassStart(t: Table, me: int)
    ensures Passed(t, me, 0) == t
  {
    assert ReparentUpTo(t.procs, me, 0) == t.procs;
  }

  /** One turn of the loop. */
  lemma PassStep(t: Table, me: int, n: int)
    requires InTable(t, n)
    ensures Passed(t, me, n).procs[n].parent == t.procs[n].parent
    ensures Passed(t, me, n).procs[n].status == ZOMBIE <==> t.procs[n].status == ZOMBIE
    ensures t.procs[n].parent != me ==> Passed(t, me, n + 1) == Passed(t, me, n)
    ensures t.procs[n].parent == me ==>
      var t' := WithParent(Passed(t, me, n), n, INIT);
      Passed(t, me, n + 1) == if t.procs[n].status == ZOMBIE then Wake(t', OfProc(INIT)) else t'
  {
    assert ZombieBelow(t.procs, me, n + 1) <==> ZombieBelow(t.procs, me, n) || ZombieChild(t.procs, me, n) by {
      if ZombieBelow(t.procs, me, n) { assert ZombieBelow(t.procs, me, n + 1); }
    }
    if t.procs[n].parent != me {
      assert ReparentUpTo(t.procs, me, n + 1) == ReparentUpTo(t.procs, me, n);
    } else {
      PassChild(t, me, n);
    }
  }

  lemma PassChild(t: Table, me: int, n: int)
    requires InTable(t, n) && t.procs[n].parent == me
    requires ZombieBelow(t.procs, me, n + 1) <==> ZombieBelow(t.procs, me, n) || ZombieChild(t.procs, me, n)
    ensures var t' := WithParent(Passed(t, me, n), n, INIT);
      Passed(t, me, n + 1) == if t.procs[n].status == ZOMBIE then Wake(t', OfProc(INIT)) else t'
  {
    var r := t.(procs := ReparentUpTo(t.procs, me, n));
    var r' := t.(procs := ReparentUpTo(t.procs, me, n + 1));
    assert WithParent(r, n, INIT) == r';
    WakeIgnoresParents(r, r', OfProc(INIT));
    if ZombieBelow(t.procs, me, n) {
      assert WithParent(Wake(r, OfProc(INIT)), n, INIT) == Wake(r', OfProc(INIT));
      WakeTwice(r', OfProc(INIT));
    }
  }

  lemma PassEnd(t: Table, me: int)
    requires InTable(t, me)
    ensures var t1 := Wake(t, OfProc(t.procs[me].parent));
      SetStatus(Passed(t1, me, |t1.procs|), me, ZOMBIE) == ExitTable(t, me)
  {
    var t1 := Wake(t, OfProc(t.procs[me].parent));
    assert ReparentUpTo(t1.procs, me, |t1.procs|) == Reparent(t1.procs, me);
  }

  datatype WaitOutcome = Reaped(pid: int) | Childless | Slept

  class PTable {
    var procs: seq<Proc>
    var nextpid: int
    const rq: Queue.RunQueue

    ghost function Tab(): Table
      reads this, rq
    {
      Table(procs, rq.queue, nextpid)
    }

    ghost predicate Valid()
      reads this, rq
    {
      rq.Valid() && |rq.nodes| == |procs| && QueueOk(Tab())
    }

    /** What userinit leaves in a table of n slots: init, queued. */
    constructor (n: nat)
      requires n > 0
      ensures Valid() && fresh(rq) && |procs| == n && Boot(State(Tab(), {}, [], {}, map[], map[]))
    {
      rq := new Queue.RunQueue(n);
      procs := seq(n, i =>
        if i == INIT then Proc(RUNNABLE, 1, NONE, NoChan, false, {}) else Proc(UNUSED, 0, NONE, NoChan, false, {}));
      nextpid := 2;
      new;
      rq.Push(INIT);
      assert Boot(State(Tab(), {}, [], {}, map[], map[]));
      BootOk(State(Tab(), {}, [], {}, map[], map[]));
    }

    /** The loop of allocproc. */
    method AllocProc() returns (p: int)
      requires Valid()
      modifies this
      ensures Valid() && forall me :: Tab() == TableStep(old(Tab()), Alloc(me))
      ensures p == NONE ==> Tab() == old(Tab()) && forall k :: 0 <= k < |procs| ==> procs[k].status != UNUSED
      ensures p != NONE ==> Has(old(Tab()), p, UNUSED) && Has(Tab(), p, EMBRYO)
    {
      ghost var t := Tab();
      p := 0;
      while p < |procs| && procs[p].status != UNUSED
        invariant 0 <= p <= |procs|
        invariant FirstUnused(procs, 0) == FirstUnused(procs, p)
      {
        p := p + 1;
      }
      if p == |procs| {
        return NONE;
      }
      AllocQueue(t);
      procs := procs[p := procs[p].(status := EMBRYO, pid := nextpid)];
      nextpid := nextpid + 1;
    }

    /** wakeup1 */
    method Wakeup1(chan: Chan)
      requires Valid()
      modifies this`procs, rq
      ensures Valid() && Tab() == Wake(old(Tab()), chan)
    {
      ghost var t := Tab();
      WakingStart(t, chan);
      hide Waking, QueueOk, Queue.Linked;
      var p := 0;
      while p < |procs|
        invariant 0 <= p <= |procs| == |t.procs|
        invariant rq.Valid() && |rq.nodes| == |procs| && Waking(t, Tab(), chan, p)
      {
        WakingStep(t, Tab(), chan, p);
        if procs[p].status == SLEEPING && procs[p].chan == chan {
          procs := procs[p := procs[p].(status := RUNNABLE)];
          rq.Push(p);
        }
        p := p + 1;
      }
      WakingEnd(t, Tab(), chan);
    }

    /** wakeup on a channel that is no process. */
    method Wakeup(id: int)
      requires Valid()
      modifies this`procs, rq
      ensures Valid() && Tab() == TableStep(old(Tab()), Lifecycle.Wakeup(id))
    {
      Wakeup1(Other(id));
    }

    /** exit, from taking ptable.lock to the switch. */
    method Exit(me: int)
      requires Valid() && CanTake(Tab(), Lifecycle.Exit(me))
      modifies this`procs, rq
      ensures Valid() && Tab() == TableStep(old(Tab()), Lifecycle.Exit(me))
    {
      ghost var t := Tab();
      Wakeup1(OfProc(procs[me].parent));
      PassChildren(me);
      PassEnd(t, me);
      StopQueue(Tab(), me, procs[me].(status := ZOMBIE));
      hide Wake, Passed, QueueOk, Queue.Linked;
      procs := procs[me := procs[me].(status := ZOMBIE)];
    }

    /** Its loop: pass the abandoned children to init. */
    method PassChildren(me: int)
      requires Valid()
      modifies this`procs, rq
      ensures Valid() && Tab() == Passed(old(Tab()), me, |old(procs)|)
    {
      ghost var t := Tab();
      PassStart(t, me);
      hide Wake, Passed, QueueOk, Queue.Linked;
      var p := 0;
      while p < |procs|
        invariant 0 <= p <= |procs| == |t.procs|
        invariant Valid() && Tab() == Passed(t, me, p)
      {
        PassStep(t, me, p);
        if procs[p].parent == me {
          ReparentQueue(Tab(), p);
          procs := procs[p := procs[p].(parent := INIT)];
          if procs[p].status == ZOMBIE {
            Wakeup1(OfProc(INIT));
          }
        }
        p := p + 1;
      }
    }

    /** One scan of wait, to its return or its sleep. */
    method WaitScan(me: int) returns (r: WaitOutcome)
      requires Valid() && CanTake(Tab(), Wait(me))
      modifies this`procs
      ensures Valid() && Tab() == TableStep(old(Tab()), Wait(me))
      ensures var z := FirstZombie(old(procs), me, 0);
        r == if z != NONE then Reaped(old(procs)[z].pid)
             else if !HasKids(old(procs), me) || old(procs)[me].killed then Childless else Slept
    {
      var havekids := false;
      var p := 0;
      while p < |procs|
        invariant 0 <= p <= |procs| && procs == old(procs)
        invariant havekids <==> exists i :: 0 <= i < p && procs[i].parent == me
        invariant FirstZombie(procs, me, 0) == FirstZombie(procs, me, p)
      {
        if procs[p].parent == me {
          havekids := true;
          if procs[p].status == ZOMBIE {
            var pid := procs[p].pid;
            var q := procs[p].(status := UNUSED, pid := 0, parent := NONE, killed := false);
            StopQueue(Tab(), p, q);
            procs := procs[p := q];
            return Reaped(pid);
          }
        }
        p := p + 1;
      }
      if !havekids || procs[me].killed {
        return Childless;
      }
      var q := procs[me].(status := SLEEPING, chan := OfProc(me));
      StopQueue(Tab(), me, q);
      procs := procs[me := q];
      return Slept;
    }

    method Kill(pid: int) returns (r: int)
      requires Valid()
      modifies this`procs, rq
      ensures Valid() && Tab() == TableStep(old(Tab()), Lifecycle.Kill(pid))
      ensures r == if exists k :: 0 <= k < |old(procs)| && old(procs)[k].pid == pid then 0 else -1
    {
      ghost var t := Tab();
      KillQueue(t, pid);
      hide QueueOk, Queue.Linked;
      var p := 0;
      while p < |procs|
        invariant 0 <= p <= |procs| && Tab() == t && rq.Valid() && |rq.nodes| == |procs|
        invariant Find(t.procs, pid, 0) == Find(t.procs, pid, p)
      {
        if procs[p].pid == pid {
          procs := procs[p := procs[p].(killed := true)];
          if procs[p].status == SLEEPING {
            if p in t.queue { QueuedAreRunnable(t, p); }
            procs := procs[p := procs[p].(status := RUNNABLE)];
            rq.Push(p);
          }
          assert Tab() == KillTable(t, pid);
          return 0;
        }
        p := p + 1;
      }
      return -1;
    }

    method Sigsend(pid: int, sig: int) returns (r: int)
      requires Valid()
      modifies this`procs
      ensures Valid() && Tab() == TableStep(old(Tab()), Lifecycle.Sigsend(pid, sig))
      ensures r == if 0 <= sig < 31 && exists k :: 0 <= k < |old(procs)| && old(procs)[k].pid == pid then 0 else -1
    {
      if sig >= 31 || sig < 0 {
        return -1;
      }
      SigsendQueue(Tab(), pid, sig);
      var p := 0;
      while p < |procs|
        invariant 0 <= p <= |procs| && procs == old(procs)
        invariant Find(procs, pid, 0) == Find(procs, pid, p)
      {
        if procs[p].pid == pid {
          procs := procs[p := procs[p].(pending := procs[p].pending + {sig})];
          if procs[p].status == SLEEPING {
            procs := procs[p := procs[p].(status := RUNNABLE)];
          }
          assert Tab() == SigsendTable(old(Tab()), pid, sig);
          return 0;
        }
        p := p + 1;
      }
      return -1;
    }

    /** fork when copyuvm has failed. */
    method ForkFail(me: int, c: int)
      requires Valid() && CanTake(Tab(), Lifecycle.ForkFail(me, c))
      modifies this`procs
      ensures Valid() && Tab() == TableStep(old(Tab()), Lifecycle.ForkFail(me, c))
    {
      StopQueue(Tab(), c, procs[c].(status := UNUSED));
      procs := procs[c := procs[c].(status := UNUSED)];
    }

    /** fork naming the parent of its child. */
    method ForkParent(me: int, c: int)
      requires Valid() && CanTake(Tab(), Lifecycle.ForkParent(me, c))
      modifies this`procs
      ensures Valid() && Tab() == TableStep(old(Tab()), Lifecycle.ForkParent(me, c))
    {
      StopQueue(Tab(), c, procs[c].(parent := me));
      procs := procs[c := procs[c].(parent := me)];
    }

    /** fork's last step: the child is ready and goes to the end of the queue. */
    method ForkReady(me: int, c: int) returns (pid: int)
      requires Valid() && CanTake(Tab(), Lifecycle.ForkReady(me, c))
      modifies this`procs, rq
      ensures Valid() && Tab() == TableStep(old(Tab()), Lifecycle.ForkReady(me, c))
      ensures pid == old(procs)[c].pid
    {
      pid := procs[c].pid;
      ghost var t := Tab();
      if c in t.queue { QueuedAreRunnable(t, c); }
      AddQueue(t, c);
      procs := procs[c := procs[c].(status := RUNNABLE)];
      rq.Push(c);
    }

    /** sleep, from taking ptable.lock to the switch. */
    method Sleep(me: int, chan: Chan)
      requires Valid() && Has(Tab(), me, RUNNING)
      modifies this`procs
      ensures Valid()
      ensures Tab() == old(Tab()).(procs := old(procs)[me := old(procs)[me].(status := SLEEPING, chan := chan)])
      ensures chan.Other? ==> Tab() == TableStep(old(Tab()), Lifecycle.Sleep(me, chan.id))
    {
      ghost var q := procs[me].(status := SLEEPING, chan := chan);
      StopQueue(Tab(), me, q);
      procs := procs[me := procs[me].(chan := chan)];
      procs := procs[me := procs[me].(status := SLEEPING)];
      assert procs == old(procs)[me := q];
    }

    method Yield(me: int)
      requires Valid() && CanTake(Tab(), Lifecycle.Yield(me))
      modifies this`procs, rq
      ensures Valid() && Tab() == TableStep(old(Tab()), Lifecycle.Yield(me))
    {
      ghost var t := Tab();
      if me in t.queue { QueuedAreRunnable(t, me); }
      AddQueue(t, me);
      procs := procs[me := procs[me].(status := RUNNABLE)];
      rq.Push(me);
    }

    /** One turn of scheduler: deal tickets, draw, take the owner off the queue and run it. */
    method Schedule(random: int, policy: Lottery.Policy, prio: seq<int>) returns (p: int)
      requires Valid() && |prio| == |procs|
      modifies this`procs, rq
      ensures Valid()
      ensures var k := Lottery.Pick(Lottery.Weights(policy, Queue.PriosOf(old(Tab()).queue, prio)), random);
        if k == -1 then p == NONE && Tab() == old(Tab())
        else 0 <= k < |old(Tab()).queue| && p == old(Tab()).queue[k] && InTable(old(Tab()), p)
             && Tab() == TableStep(old(Tab()), Lifecycle.Schedule(k))
    {
      ghost var t := Tab();
      ghost var k := Lottery.Pick(Lottery.Weights(policy, Queue.PriosOf(t.queue, prio)), random);
      if k != -1 { RunQueueOk(t, k); }
      p := Draw(random, policy, prio);
      if p != NONE {
        hide QueueOk, Queue.Linked, Lottery.Pick, Lottery.Weights, Queue.PriosOf;
        rq.Remove(p, k);
        procs := procs[p := procs[p].(status := RUNNING, chan := NoChan)];
      }
    }

    /** Its lottery: deal tickets along the queue and find the owner of the one drawn. */
    method Draw(random: int, policy: Lottery.Policy, prio: seq<int>) returns (p: int)
      requires Valid() && |prio| == |procs|
      modifies rq
      ensures Valid() && Tab() == old(Tab())
      ensures var k := Lottery.Pick(Lottery.Weights(policy, Queue.PriosOf(old(Tab()).queue, prio)), random);
        p == if k == -1 then NONE else old(Tab()).queue[k]
    {
      var ps := procs;
      var runnable := seq(|ps|, i requires 0 <= i < |ps| => ps[i].status == RUNNABLE);
      AllQueuedRunnable(Tab(), runnable);
      Queue.KeptAll(policy, rq.queue, runnable);
      hide QueueOk, Queue.Linked, Queue.Kept, Queue.Delivered, Queue.AllRunnable;
      hide Lottery.Pick, Lottery.Weights, Queue.PriosOf;
      if policy == Lottery.Fifo {
        rq.DeliverFifo(runnable, prio);
      } else {
        rq.DeliverPriority(runnable, prio);
      }
      p := rq.PickProcess(random, policy, prio);
    }
  }

  lemma AllQueuedRunnable(t: Table, runnable: seq<bool>)
    requires QueueOk(t) && |runnable| == |t.procs|
    requires forall i :: 0 <= i < |t.procs| ==> runnable[i] == (t.procs[i].status == RUNNABLE)
    ensures Queue.AllRunnable(t.queue, runnable)
  {
    forall k | 0 <= k < |t.queue| ensures 0 <= t.queue[k] < |runnable| && runnable[t.queue[k]] {
      assert QueueAt(t, k);
    }
  }

  lemma RunQueueOk(t: Table, k: int)
    requires QueueOk(t) && 0 <= k < |t.queue|
    ensures InTable(t, t.queue[k]) && QueueOk(Run(t, k))
  {
    assert QueueAt(t, k);
    forall x ensures QueueAt(Run(t, k), x) { assert QueueAt(t, x) && QueueAt(t, x + 1); }
  }

  lemma ReparentQueue(t: Table, p: int)
    requires QueueOk(t) && InTable(t, p)
    ensures QueueOk(WithParent(t, p, INIT))
  {
    forall k ensures QueueAt(WithParent(t, p, INIT), k) { assert QueueAt(t, k); }
  }

  /** A process that is not RUNNABLE is not queued, so its slot may be rewritten. */
  lemma StopQueue(t: Table, p: int, q: Proc)
    requires QueueOk(t) && InTable(t, p) && t.procs[p].status != RUNNABLE
    ensures QueueOk(t.(procs := t.procs[p := q]))
  {
    var t' := t.(procs := t.procs[p := q]);
    forall k ensures QueueAt(t', k) { assert QueueAt(t, k); }
  }

  lemma AddQueue(t: Table, p: int)
    requires QueueOk(t) && InTable(t, p) && p !in t.queue
    ensures QueueOk(SetStatus(t, p, RUNNABLE).(queue := t.queue + [p]))
  {
    var t' := SetStatus(t, p, RUNNABLE).(queue := t.queue + [p]);
    forall k ensures QueueAt(t', k) { assert QueueAt(t, k); }
  }

  lemma AllocQueue(t: Table)
    requires QueueOk(t)
    ensures QueueOk(AllocTable(t))
  {
    forall k ensures QueueAt(AllocTable(t), k) { assert QueueAt(t, k); }
  }

  lemma KillQueue(t: Table, pid: int)
    requires QueueOk(t)
    ensures QueueOk(KillTable(t, pid))
  {
    var z := Find(t.procs, pid, 0);
    if z != NONE {
      if z in t.queue { QueuedAreRunnable(t, z); }
      forall k ensures QueueAt(KillTable(t, pid), k) { assert QueueAt(t, k); }
    }
  }

  lemma SigsendQueue(t: Table, pid: int, sig: int)
    requires QueueOk(t)
    ensures QueueOk(SigsendTable(t, pid, sig))
  {
    forall k ensures QueueAt(SigsendTable(t, pid, sig), k) { assert QueueAt(t, k); }
  }
}
