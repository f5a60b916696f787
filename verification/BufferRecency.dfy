/** bget recycles the buffer whose last release is the longest ago. */
module BufferRecency {
  import opened BufferCache

  predicate Releases(a: Action, b: int)
  {
    a.Release? && a.b == b
  }

  /** When the run last released buffer b: how many actions it had then taken; 0 for never. */
  function LastRelease(run: seq<Action>, b: int): (r: nat)
    ensures r <= |run|
  {
    if run == [] then 0
    else if Releases(run[|run| - 1], b) then |run|
    else LastRelease(run[..|run| - 1], b)
  }

  lemma {:induction false} RunLast(s: State, run: seq<Action>)
    requires Runs(s, run) && run != []
    ensures var front, a := run[..|run| - 1], run[|run| - 1];
      Runs(s, front) && Enabled(After(s, front), a) && After(s, run) == Step(After(s, front), a)
    decreases |run|
  {
    var rest := run[1..];
    hide Enabled, Step;
    if rest != [] {
      RunLast(Step(s, run[0]), rest);
      assert run[..|run| - 1][1..] == rest[..|rest| - 1];
    } else {
      assert run[..|run| - 1] == [];
    }
  }

  /** The list of buffers runs from the latest release to the earliest. */
  predicate Newer(order: seq<int>, run: seq<Action>, i: int, j: int)
  {
    0 <= i < j < |order| ==> LastRelease(run, order[i]) >= LastRelease(run, order[j])
  }

  ghost predicate ByRecency(order: seq<int>, run: seq<Action>)
  {
    forall i, j {:trigger Newer(order, run, i, j)} :: Newer(order, run, i, j)
  }

  lemma FrontIsNewest(order: seq<int>, run: seq<Action>, k: int)
    requires 0 <= k < |order| && run != [] && Releases(run[|run| - 1], order[k])
    requires ByRecency(order, run[..|run| - 1]) && forall i, j :: 0 <= i < j < |order| ==> order[i] != order[j]
    ensures ByRecency(ToFront(order, k), run)
  {
    var front := run[..|run| - 1];
    var order' := ToFront(order, k);
    forall i, j ensures Newer(order', run, i, j) {
      if 0 <= i < j < |order'| {
        assert order'[i] == order[Before(k, i)] && order'[j] == order[Before(k, j)];
        assert Newer(order, front, Before(k, i), Before(k, j));
      }
    }
  }

  /** From boot, over every run: the list is in the order of the last releases. */
  lemma {:induction false} ListByRecency(s: State, run: seq<Action>)
    requires Boot(s) && Runs(s, run)
    ensures Inv(After(s, run)) && ByRecency(After(s, run).c.order, run)
    decreases |run|
  {
    BootOk(s);
    InvAlways(s, run);
    if run == [] {
      forall i, j ensures Newer(s.c.order, run, i, j) { }
      return;
    }
    var front, a := run[..|run| - 1], run[|run| - 1];
    RunLast(s, run);
    ListByRecency(s, front);
    var s1 := After(s, front);
    if a.Release? {
      FrontIsNewest(s1.c.order, run, a.k);
    } else {
      hide Inv;
      assert After(s, run).c.order == s1.c.order;
      forall i, j ensures Newer(s1.c.order, run, i, j) { assert Newer(s1.c.order, front, i, j); }
    }
  }

  /** The backward scan of bget stops at the last buffer that can be recycled. */
  lemma {:induction false} SpareIsLast(c: Cache, k: nat)
    requires k <= |c.order|
    ensures var r := FindSpare(c, k); forall j :: 0 <= j < k && (r == NONE || r < j) ==> !Recyclable(c, c.order[j])
  {
    if k > 0 && !Recyclable(c, c.order[k - 1]) { SpareIsLast(c, k - 1); }
  }

  /** bget for a sector that no buffer holds: it takes a buffer that is free and clean, and whose last release no such
      buffer's precedes; it fails only if there is none. */
  lemma RecyclesOldest(s: State, run: seq<Action>, sector: int)
    requires Boot(s) && Runs(s, run)
    requires forall b :: !Holds(After(s, run).c, b, DISK, sector)
    ensures var c := After(s, run).c; var g := Bget(c, DISK, sector);
      && !g.Wait?
      && (g.Got? ==> Recyclable(c, g.b) && forall o :: Recyclable(c, o) ==> LastRelease(run, g.b) <= LastRelease(run, o))
      && (g.NoBuffers? ==> forall o :: !Recyclable(c, o))
  {
    ListByRecency(s, run);
    var c := After(s, run).c;
    var r := FindSpare(c, |c.order|);
    SpareIsLast(c, |c.order|);
    assert FindSector(c, DISK, sector, 0) == NONE;
    forall o | Recyclable(c, o) ensures r != NONE && LastRelease(run, c.order[r]) <= LastRelease(run, o) {
      assert o in c.order;
      var j :| 0 <= j < |c.order| && c.order[j] == o;
      assert Newer(c.order, run, j, r);
    }
  }

  /** brelse lets the next bget have the buffer. */
  lemma ReleasedIsHad(s: State, b: int, k: int)
    requires Inv(s) && Enabled(s, Release(b, k))
    ensures var s' := Step(s, Release(b, k)); var sector := s.c.bufs[b].sector;
      && Enabled(s', Get(sector)) && Bget(s'.c, DISK, sector).b == b
      && Step(s', Get(sector)).c.bufs[b] == s.c.bufs[b]
  {
    var s' := Step(s, Release(b, k));
    var sector := s.c.bufs[b].sector;
    ReleaseKeeps(s, b, k);
    assert BufAt(s, b);
    assert s'.c.order[0] == b && Holds(s'.c, b, DISK, sector);
    assert FindSector(s'.c, DISK, sector, 0) == 0;
  }

  /** While a buffer is held, bget for its sector waits. */
  lemma HeldIsWaitedFor(s: State, b: int)
    requires Inv(s) && Held(s.c, b)
    ensures Bget(s.c, DISK, s.c.bufs[b].sector) == Wait(b)
  {
    var sector := s.c.bufs[b].sector;
    assert BufAt(s, b) && b in s.c.order;
    var j :| 0 <= j < |s.c.order| && s.c.order[j] == b;
    FindsSector(s.c, DISK, sector, 0, j);
    var k := FindSector(s.c, DISK, sector, 0);
    assert UniqueAt(s.c, s.c.order[k], b);
  }
}
