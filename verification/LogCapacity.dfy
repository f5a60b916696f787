/** The reservation argument of begin_op: when log_write can run out of log space. */
module LogCapacity {
  import opened BlockStore
  import opened LogRecovery
  import opened GroupCommit

  /** log_write calls that operations numbered below n have reserved and not made. */
  function Unused(active: map<nat, nat>, n: nat): int
  {
    if n == 0 then 0
    else Unused(active, n - 1) + if n - 1 in active then MAXOPBLOCKS - active[n - 1] else 0
  }

  /** The header plus all unused reservations fit in the log. */
  ghost predicate Reserved(s: State)
  {
    && (forall op :: op in s.active ==> op < s.nextOp && s.active[op] <= MAXOPBLOCKS)
    && |s.v.secs| + Unused(s.active, s.nextOp) <= LOGSIZE
  }

  ghost predicate WithinBudget(s: State, a: Action)
  {
    a.Write? && a.op in s.active ==> s.active[a.op] < MAXOPBLOCKS
  }

  /** Every operation of the run makes at most MAXOPBLOCKS log_write calls. */
  ghost predicate Disciplined(s: State, l: Layout, acts: seq<Action>)
  {
    acts == [] ||
    var front := acts[..|acts| - 1];
    && Disciplined(s, l, front)
    && (Exec(s, l, front).Next? ==> WithinBudget(Exec(s, l, front).s, acts[|acts| - 1]))
  }

  lemma {:induction false} UnusedSame(a: map<nat, nat>, b: map<nat, nat>, n: nat)
    requires forall i :: 0 <= i < n ==> (i in a <==> i in b)
    requires forall i :: 0 <= i < n && i in a ==> a[i] == b[i]
    ensures Unused(a, n) == Unused(b, n)
  {
    if n > 0 {
      UnusedSame(a, b, n - 1);
    }
  }

  lemma {:induction false} UnusedUpdate(a: map<nat, nat>, op: nat, w: nat, n: nat)
    requires op in a && op < n
    ensures Unused(a[op := w], n) == Unused(a, n) + a[op] - w
  {
    if op == n - 1 {
      UnusedSame(a, a[op := w], n - 1);
    } else {
      UnusedUpdate(a, op, w, n - 1);
    }
  }

  lemma {:induction false} UnusedRemove(a: map<nat, nat>, op: nat, n: nat)
    requires op in a && op < n && a[op] <= MAXOPBLOCKS
    ensures Unused(a - {op}, n) <= Unused(a, n)
  {
    if op == n - 1 {
      UnusedSame(a, a - {op}, n - 1);
    } else {
      UnusedRemove(a, op, n - 1);
    }
  }

  lemma {:induction false} UnusedBound(a: map<nat, nat>, n: nat)
    ensures Unused(a, n) <= MAXOPBLOCKS * |set op | op in a && op < n|
  {
    if n > 0 {
      UnusedBound(a, n - 1);
      var below := set op | op in a && op < n - 1;
      var upto := set op | op in a && op < n;
      if n - 1 in a {
        assert upto == below + {n - 1};
      } else {
        assert upto == below;
      }
    }
  }

  lemma {:induction false} UnusedAtLeast(a: map<nat, nat>, n: nat)
    requires forall op :: op in a ==> a[op] <= MAXOPBLOCKS
    ensures 0 <= Unused(a, n)
    ensures forall op :: op in a && op < n ==> MAXOPBLOCKS - a[op] <= Unused(a, n)
  {
    if n > 0 {
      UnusedAtLeast(a, n - 1);
    }
  }

  lemma {:induction false} NothingReserved(n: nat)
    ensures Unused(map[], n) == 0
  {
    if n > 0 {
      NothingReserved(n - 1);
    }
  }

  /** begin_op let a new operation in: its whole budget was free. */
  lemma NewReservation(s: State)
    requires Reserved(s) && s.v.outstanding == |s.active| && !Blocked(s.v)
    ensures |s.v.secs| + Unused(s.active[s.nextOp := 0], s.nextOp + 1) <= LOGSIZE
  {
    UnusedSame(s.active, s.active[s.nextOp := 0], s.nextOp);
    UnusedBound(s.active, s.nextOp);
    assert (set op | op in s.active && op < s.nextOp) == s.active.Keys;
    assert |s.active| == |s.active.Keys|;
  }

  lemma OpReserves(s: State, l: Layout, a: Action)
    requires Reserved(s) && s.v.outstanding == |s.active|
    requires WithinBudget(s, a) && (a.Begin? || a.Write? || a.End?)
    requires Step(s, l, a).Next?
    ensures Reserved(Step(s, l, a).s)
  {
    match a
    case Begin =>
      if !Blocked(s.v) {
        NewReservation(s);
      }
    case Write(op, sector, data) => WriteReserves(s, l, a);
    case End(op) => UnusedRemove(s.active, op, s.nextOp);
  }

  lemma WriteReserves(s: State, l: Layout, a: Action)
    requires Reserved(s) && s.v.outstanding == |s.active|
    requires WithinBudget(s, a) && a.Write? && Step(s, l, a).Next?
    ensures Reserved(Step(s, l, a).s)
  {
    UnusedUpdate(s.active, a.op, s.active[a.op] + 1, s.nextOp);
  }

  lemma StepReserves(s: State, l: Layout, a: Action)
    requires Reserved(s) && s.v.outstanding == |s.active|
    requires WithinBudget(s, a)
    requires s.phase.Committing? ==> s.active == map[]
    requires Step(s, l, a).Next?
    ensures Reserved(Step(s, l, a).s)
  {
    if a.Begin? || a.Write? || a.End? {
      OpReserves(s, l, a);
    } else {
      NothingReserved(s.nextOp);
    }
  }

  lemma {:induction false} RunReserves(d: seq<Block>, l: Layout, acts: seq<Action>)
    requires DiskHeadOk(d, l)
    requires Disciplined(Boot(d, 0, []), l, acts)
    ensures Exec(Boot(d, 0, []), l, acts).Next? ==> Reserved(Exec(Boot(d, 0, []), l, acts).s)
  {
    if acts != [] {
      var front := acts[..|acts| - 1];
      RunReserves(d, l, front);
      var o := Exec(Boot(d, 0, []), l, front);
      if o.Next? && Step(o.s, l, acts[|acts| - 1]).Next? {
        BootInv(d, l);
        RunKeeps(Boot(d, 0, []), l, Recover(d, l)[..l.start], front);
        StepReserves(o.s, l, acts[|acts| - 1]);
      }
    }
  }

  /** With more log sectors than LOGSIZE, operations of at most MAXOPBLOCKS log_write calls
      each never panic, however they interleave.
   */
  lemma {:induction false} LargeLogNeverPanics(d: seq<Block>, l: Layout, acts: seq<Action>)
    requires DiskHeadOk(d, l)
    requires Disciplined(Boot(d, 0, []), l, acts)
    requires l.size > LOGSIZE
    ensures !Exec(Boot(d, 0, []), l, acts).Panic?
  {
    if acts != [] {
      var front := acts[..|acts| - 1];
      LargeLogNeverPanics(d, l, front);
      var o := Exec(Boot(d, 0, []), l, front);
      if o.Next? {
        RunReserves(d, l, front);
        BootInv(d, l);
        RunKeeps(Boot(d, 0, []), l, Recover(d, l)[..l.start], front);
        StepPanics(o.s, l, Recover(d, l)[..l.start], acts[|acts| - 1]);
        UnusedAtLeast(o.s.active, o.s.nextOp);
      }
    }
  }

  // ---- Smaller logs do panic

  /** Three begin_ops, then k log_writes to sectors 0, 1, 2, ..., ten by each operation. */
  function Fill(op: nat, data: Block, k: nat): (acts: seq<Action>)
    requires k <= LOGSIZE
    ensures |acts| == 3 + k
  {
    if k == 0 then [Begin, Begin, Begin]
    else Fill(op, data, k - 1) + [Write(op + (k - 1) / MAXOPBLOCKS, k - 1, data)]
  }

  function Count(k: nat, i: nat): nat
  {
    if k <= i * MAXOPBLOCKS then 0
    else if k >= (i + 1) * MAXOPBLOCKS then MAXOPBLOCKS
    else k - i * MAXOPBLOCKS
  }

  /** What Fill leads to. */
  ghost predicate Filled(t: State, s: State, k: nat)
  {
    && t.phase.Idle?
    && t.v.secs == seq(k, i requires 0 <= i => i)
    && t.v.outstanding == 3
    && t.active == map[s.nextOp := Count(k, 0), s.nextOp + 1 := Count(k, 1), s.nextOp + 2 := Count(k, 2)]
  }

  /** No operation, commit or recovery in progress. */
  ghost predicate Quiet(s: State)
  {
    s.phase.Idle? && s.active == map[] && s.v == Vars([], 0, false, 0)
  }

  ghost predicate Fills(s: State, l: Layout, acts: seq<Action>, k: nat)
  {
    Disciplined(s, l, acts) && Exec(s, l, acts).Next? && Filled(Exec(s, l, acts).s, s, k)
  }

  lemma ThreeBegin(s: State, l: Layout, data: Block)
    requires Quiet(s)
    ensures Fills(s, l, Fill(s.nextOp, data, 0), 0)
  {
    var b1, b2, b3 := [Begin], [Begin, Begin], [Begin, Begin, Begin];
    assert b3[..2] == b2 && b2[..1] == b1 && b1[..0] == [];
    assert Exec(s, l, []) == Next(s);
    var s1 := Step(s, l, Begin).s;
    assert Exec(s, l, b1) == Next(s1);
    var s2 := Step(s1, l, Begin).s;
    assert Exec(s, l, b2) == Next(s2);
    var s3 := Step(s2, l, Begin).s;
    assert Exec(s, l, b3) == Next(s3);
    assert Disciplined(s, l, b1) && Disciplined(s, l, b2);
  }

  lemma OneMore(s: State, l: Layout, front: seq<Action>, a: Action, t: State)
    requires Exec(s, l, front) == Next(t)
    requires Disciplined(s, l, front) && WithinBudget(t, a)
    ensures Exec(s, l, front + [a]) == Step(t, l, a)
    ensures Disciplined(s, l, front + [a])
  {
    assert (front + [a])[..|front|] == front;
  }

  lemma CountStep(k: nat)
    requires k < LOGSIZE
    ensures var i := k / MAXOPBLOCKS;
      && 0 <= i < 3 && Count(k, i) < MAXOPBLOCKS
      && forall j :: 0 <= j < 3 ==> Count(k + 1, j) == Count(k, j) + if j == i then 1 else 0
  {
  }

  /** One more log_write. */
  lemma FillStep(t: State, s: State, l: Layout, data: Block, k: nat)
    requires LOGSIZE <= l.start
    requires k < LOGSIZE
    requires Filled(t, s, k)
    ensures var a := Write(s.nextOp + k / MAXOPBLOCKS, k, data);
      && WithinBudget(t, a)
      && if k < l.size - 1 then Step(t, l, a).Next? && Filled(Step(t, l, a).s, s, k + 1)
         else Step(t, l, a).Panic?
  {
    var i := k / MAXOPBLOCKS;
    CountStep(k);
    hide Count;
    assert s.nextOp + i in t.active && t.active[s.nextOp + i] == Count(k, i);
    assert Absorb(t.v.secs, k) == t.v.secs + [k];
  }

  lemma FillMore(s: State, l: Layout, front: seq<Action>, data: Block, k: nat)
    requires LOGSIZE <= l.start && k < LOGSIZE && k < l.size - 1
    requires Fills(s, l, front, k)
    ensures Fills(s, l, front + [Write(s.nextOp + k / MAXOPBLOCKS, k, data)], k + 1)
  {
    var t := Exec(s, l, front).s;
    FillStep(t, s, l, data, k);
    OneMore(s, l, front, Write(s.nextOp + k / MAXOPBLOCKS, k, data), t);
  }

  /** The log takes k sectors as long as k is within both limits of log_write. */
  lemma {:induction false} FillSucceeds(s: State, l: Layout, data: Block, k: nat)
    requires Quiet(s)
    requires LOGSIZE <= l.start
    requires k <= LOGSIZE && k <= l.size - 1
    ensures Fills(s, l, Fill(s.nextOp, data, k), k)
  {
    hide Fills, Quiet;
    if k == 0 {
      ThreeBegin(s, l, data);
    } else {
      FillSucceeds(s, l, data, k - 1);
      FillMore(s, l, Fill(s.nextOp, data, k - 1), data, k - 1);
    }
  }

  /** From every quiet state a log of at most LOGSIZE sectors has a run of three operations,
      ten log_writes each, that ends in "too big a transaction".
   */
  lemma SmallLogPanics(s: State, l: Layout, data: Block) returns (acts: seq<Action>)
    requires Quiet(s)
    requires LOGSIZE <= l.start && 0 < l.size <= LOGSIZE
    ensures Disciplined(s, l, acts) && Exec(s, l, acts).Panic?
  {
    hide Exec, Step, Filled, Quiet, Disciplined, WithinBudget;
    var k := l.size - 1;
    FillSucceeds(s, l, data, k);
    var front := Fill(s.nextOp, data, k);
    acts := Fill(s.nextOp, data, k + 1);
    var t := Exec(s, l, front).s;
    FillStep(t, s, l, data, k);
    OneMore(s, l, front, Write(s.nextOp + k / MAXOPBLOCKS, k, data), t);
  }

  /** Counting blocks instead of calls is not enough, whatever the log size: with LOGSIZE
      sectors logged, a log_write to one of them panics although it would be absorbed.
   */
  lemma AbsorbedWritePanics(s: State, l: Layout, data: Block)
    requires Quiet(s)
    requires LOGSIZE <= l.start && LOGSIZE < l.size
    ensures var acts := Fill(s.nextOp, data, LOGSIZE);
      && Exec(s, l, acts).Next?
      && 0 in Exec(s, l, acts).s.v.secs
      && Exec(s, l, acts + [Write(s.nextOp, 0, data)]).Panic?
  {
    var acts := Fill(s.nextOp, data, LOGSIZE);
    FillSucceeds(s, l, data, LOGSIZE);
    var t := Exec(s, l, acts).s;
    assert t.v.secs[0] == 0;
    assert (acts + [Write(s.nextOp, 0, data)])[..|acts|] == acts;
    assert s.nextOp in t.active;
  }

  // ---- The exact condition

  /** No disciplined run on any disk panics. */
  ghost predicate NeverPanics(l: Layout)
  {
    forall d: seq<Block>, acts: seq<Action> ::
      DiskHeadOk(d, l) && Disciplined(Boot(d, 0, []), l, acts) ==> !Exec(Boot(d, 0, []), l, acts).Panic?
  }

  lemma {:induction false} ExecAfter(s: State, l: Layout, first: seq<Action>, t: State, acts: seq<Action>)
    requires Exec(s, l, first) == Next(t)
    requires Disciplined(s, l, first)
    ensures Exec(s, l, first + acts) == Exec(t, l, acts)
    ensures Disciplined(t, l, acts) ==> Disciplined(s, l, first + acts)
  {
    hide Step, WithinBudget;
    if acts == [] {
      assert first + acts == first;
    } else {
      var front := acts[..|acts| - 1];
      ExecAfter(s, l, first, t, front);
      assert (first + acts)[..|first + acts| - 1] == first + front;
    }
  }

  /** Booting an empty log takes one sector write. */
  lemma BootQuiet(d: seq<Block>, l: Layout)
    requires DiskHeadOk(d, l) && d[l.start][0] == 0
    ensures Disciplined(Boot(d, 0, []), l, [SectorOut, Finish])
    ensures var o := Exec(Boot(d, 0, []), l, [SectorOut, Finish]); o.Next? && Quiet(o.s)
  {
    var s := Boot(d, 0, []);
    assert [SectorOut, Finish][..1] == [SectorOut] && [SectorOut][..0] == [];
    assert Exec(s, l, []) == Next(s);
    assert |RecoveryWrites(d, l)| == 1;
    var s1 := Step(s, l, SectorOut).s;
    assert Exec(s, l, [SectorOut]) == Next(s1);
    assert Disciplined(s, l, [SectorOut]);
  }

  /** Operations of at most MAXOPBLOCKS log_writes are safe exactly on logs of more than LOGSIZE
      sectors; the file systems that mkfs makes have LOGSIZE.
   */
  lemma PanicFreeIffLargeLog(l: Layout)
    requires LOGSIZE <= l.start && 0 < l.size
    ensures NeverPanics(l) <==> l.size > LOGSIZE
  {
    if l.size > LOGSIZE {
      forall d: seq<Block>, acts: seq<Action> | DiskHeadOk(d, l) && Disciplined(Boot(d, 0, []), l, acts)
        ensures !Exec(Boot(d, 0, []), l, acts).Panic?
      {
        LargeLogNeverPanics(d, l, acts);
      }
    } else {
      var zero: Block := seq(BLOCK_WORDS, _ => 0);
      var d: seq<Block> := seq(l.start + l.size, _ => zero);
      BootQuiet(d, l);
      var first := [SectorOut, Finish];
      var s := Exec(Boot(d, 0, []), l, first).s;
      var acts := SmallLogPanics(s, l, zero);
      ExecAfter(Boot(d, 0, []), l, first, s, acts);
    }
  }
}
