/** The loops of vm.c and kalloc.c on physical memory, against the functions of AddressSpace. */
module VirtualMemory {
  import opened PageTable
  import opened AddressSpace
  import opened FrameCounts

  /** PGROUNDUP(n) / PGSIZE, for n below 4 GB less a page. */
  function PagesUp(n: int): int
  {
    (n + PGSIZE - 1) / PGSIZE
  }

  lemma PagesUpIs(n: int, p: int)
    ensures p * PGSIZE < n <==> p < PagesUp(n)
    ensures PagesUp(p * PGSIZE) == p
  {
  }

  /** The frame at a kernel address. */
  function FrameAt(addr: int): int
  {
    (addr - KERNBASE) / PGSIZE
  }

  lemma FrameAtAddr(f: int)
    ensures FrameAt(Addr(f)) == f
    ensures 0 <= f ==> Addr(f) != 0
  {
  }

  class Machine {
    const lo: int
    var pages: seq<Page>
    var freelist: int
    ghost var free: seq<int>

    ghost function State(): Mem
      reads this
    {
      Mem(lo, pages, free)
    }

    /** The free list starts at freelist and goes on through the first words of the free pages. */
    ghost predicate Valid()
      reads this
    {
      Shape(State()) && freelist == Link(free, 0)
    }

    lemma ValidShape()
      requires Valid()
      ensures Shape(State())
    {
    }

    /** No free pages yet: freerange then frees what memory there is. */
    constructor (low: int, memory: seq<Page>)
      requires 0 < low && forall f :: 0 <= f < |memory| ==> |memory[f]| == NENT
      ensures Valid() && State() == Mem(low, memory, [])
    {
      lo, pages, freelist, free := low, memory, 0, [];
      new;
      forall f ensures PageAt(State(), f) { }
      forall k ensures FreeAt(State(), k) { }
    }

    /** The head of the free list, unlinked; 0 if there is none. */
    method Kalloc() returns (r: int)
      requires Valid()
      modifies this`freelist, this`free
      ensures Valid() && r == Link(old(free), 0)
      ensures State() == if r == 0 then old(State()) else old(State()).(free := old(free)[1..])
      ensures r != 0 <==> old(free) != []
      ensures r != 0 ==> FrameAt(r) == old(free)[0] && lo <= FrameAt(r) < |pages| && FrameAt(r) !in free
    {
      r := freelist;
      ghost var m := State();
      assert FreeAt(m, 0);
      if free != [] { FrameAtAddr(free[0]); }
      if r != 0 {
        freelist := pages[FrameAt(r)][0];
        free := free[1..];
        forall f ensures PageAt(State(), f) { assert PageAt(m, f); }
        forall k ensures FreeAt(State(), k) { assert FreeAt(m, k + 1); }
      }
    }

    /** kfree of a frame in range; the source panics on others. */
    method Kfree(f: int)
      requires Valid() && lo <= f < |pages| && f !in free
      modifies this
      ensures Valid() && State() == PageTable.Kfree(old(State()), f)
    {
      KfreeShape(State(), f);
      pages := pages[f := JunkPage(freelist)];
      freelist := Addr(f);
      free := [f] + free;
    }

    /** kinit's loop over the frames from a to b. */
    method Freerange(a: int, b: int)
      requires Valid() && lo <= a <= b <= |pages| && forall f :: a <= f < b ==> f !in free
      modifies this
      ensures Valid() && |pages| == old(|pages|)
      ensures forall f :: f in free <==> f in old(free) || a <= f < b
    {
      var f := a;
      while f < b
        invariant a <= f <= b && Valid() && |pages| == old(|pages|)
        invariant forall g :: g in free <==> g in old(free) || a <= g < f
      {
        Kfree(f);
        f := f + 1;
      }
    }

    /** kalloc and the filling of the page; the frame, or 0. */
    method TakePage(content: Page) returns (f: int)
      requires Valid() && |content| == NENT
      modifies this
      ensures Valid()
      ensures if old(free) == [] then f == 0 && State() == old(State())
        else 0 < f == old(free)[0] < |old(pages)| && State() == Take(old(State()), content)
    {
      ghost var m := State();
      assert FreeAt(m, 0);
      if free != [] { TakeShape(m, content); }
      var r := Kalloc();
      if r == 0 {
        return 0;
      }
      f := FrameAt(r);
      pages := pages[f := content];
    }

    /** walkpgdir with alloc set: the frame of the page's table, or 0. */
    method Walkpgdir(d: int, v: int) returns (f: int)
      requires Valid() && Space(State(), d) && 0 <= v < NPAGES
      modifies this
      ensures Valid()
      ensures var w := Walk(old(State()), d, v);
        State() == w.m && if w.Done? then f != 0 && f == Table(w.m, d, Pdx(v)) else f == 0
    {
      ghost var m := State();
      assert RefAt(m, d, Directory) && PageAt(m, d) && RefAt(m, d, TableOf(Pdx(v)));
      PageNumber(v, v);
      hide Pdx, Ptx;
      var pde := pages[d][Pdx(v)];
      if Present(pde) {
        return Frame(pde);
      }
      if free != [] {
        ReadyForTable(m, d, Pdx(v));
        NewTableTable(m, d, Pdx(v), Pdx(v));
        NewTableSpace(m, d, Pdx(v));
      }
      f := TakePage(ZeroPage());
      if f != 0 {
        pages := pages[d := pages[d][Pdx(v) := Entry(f, PTE_P + PTE_W + PTE_U)]];
      }
    }

    /** mappages over k.n pages; false for -1.  The source panics on a page that is mapped. */
    method Mappages(d: int, k: Kmap) returns (ok: bool)
      requires Valid() && Space(State(), d) && MapsOk(State(), d, k)
      modifies this
      ensures Valid() && Space(State(), d)
      ensures var w := MapRange(old(State()), d, k); State() == w.m && ok == w.Done?
    {
      ghost var m := State();
      var left := k;
      hide Space, MapsOk;
      while left.n > 0
        invariant Valid() && Space(State(), d) && MapsOk(State(), d, left) && MapRange(m, d, k) == MapRange(State(), d, left)
        decreases left.n
      {
        MapTurn(State(), d, left);
        hide MapPage, MapRange, Pte, Shape;
        ok := MapOne(d, left.v, left.frame, left.perm);
        if !ok {
          return;
        }
        left := Kmap(left.v + 1, left.frame + 1, left.n - 1, left.perm);
      }
      ok := true;
    }

    /** One turn of it. */
    method MapOne(d: int, v: int, frame: int, perm: int) returns (ok: bool)
      requires Valid() && Space(State(), d) && CanMap(State(), d, v, frame) && 0 <= perm < PGSIZE
      modifies this
      ensures Valid() && Space(State(), d)
      ensures var w := MapPage(old(State()), d, v, frame, perm); State() == w.m && ok == w.Done?
    {
      WalkSpace(State(), d, v);
      MapPageSpace(State(), d, v, frame, perm, 0);
      var f := Walkpgdir(d, v);
      if f == 0 {
        return false;
      }
      assert RefAt(State(), d, TableOf(Pdx(v))) && PageAt(State(), f);
      PageNumber(v, v);
      pages := pages[f := pages[f][Ptx(v) := Entry(frame, WithP(perm))]];
      return true;
    }

    /** The frame of the directory, or 0. */
    method Setupkvm(kmap: seq<Kmap>) returns (d: int)
      requires Valid() && ValidKmap(kmap)
      modifies this
      ensures Valid()
      ensures var s := SetupKvm(old(State()), kmap);
        State() == s.m && d == if s.SetupDone? then s.d else 0
      ensures d != 0 <==> SetupKvm(old(State()), kmap).SetupDone?
    {
      ghost var m0 := State();
      assert FreeAt(m0, 0);
      d := TakePage(ZeroPage());
      if d == 0 {
        return;
      }
      EmptySpace(m0);
      ghost var m1 := State();
      var x := 0;
      while x < |kmap|
        invariant 0 <= x <= |kmap| && Valid() && Child(m0, State(), d, 0)
        invariant MapAll(m1, d, kmap) == MapAll(State(), d, kmap[x..])
        invariant forall y, u :: x <= y < |kmap| && Covers(kmap[y], u) ==> !Present(Pte(State(), d, u))
      {
        KmapTurn(m0, State(), d, kmap, x);
        var ok := Mappages(d, kmap[x]);
        if !ok {
          return 0;
        }
        x := x + 1;
      }
    }

    /** deallocuvm, sizes in bytes. */
    method Deallocuvm(d: int, oldsz: int, newsz: int, ghost m0: Mem) returns (sz: int)
      requires Valid() && Child(m0, State(), d, 0) && 0 <= newsz && oldsz <= KERNBASE
      modifies this
      ensures Valid() && Child(m0, State(), d, 0)
      ensures State() == if newsz >= oldsz then old(State()) else Dealloc(old(State()), d, PagesUp(newsz), PagesUp(oldsz))
      ensures sz == if newsz >= oldsz then oldsz else newsz
    {
      hide Dealloc, DeallocAt, Child, Pte, Table, PagesUp, Shape;
      if newsz >= oldsz {
        return oldsz;
      }
      ghost var m := State();
      ghost var e := PagesUp(oldsz);
      PagesUpNat(newsz);
      var p := PagesUp(newsz);
      var a := p * PGSIZE;
      PagesUpIs(KERNBASE, KERNPAGE);
      while a < oldsz
        invariant 0 <= p && a == p * PGSIZE
        invariant Valid() && Child(m0, State(), d, 0)
        invariant Dealloc(m, d, PagesUp(newsz), e) == Dealloc(State(), d, p, e)
        decreases oldsz - a
      {
        PagesUpIs(oldsz, p);
        PagesUpIs(KERNBASE, p);
        DeallocTurn(m0, State(), d, p);
        DeallocUnfolds(State(), d, p, e);
        var there := DropPage(d, p, m0);
        if !there {
          a, p := a + (NENT - 1) * PGSIZE, p + (NENT - 1);
        }
        a, p := a + PGSIZE, p + 1;
      }
      PagesUpIs(oldsz, p);
      DeallocUnfolds(State(), d, p, e);
      return newsz;
    }

    /** Its turn at page v: whether the page's table is there. */
    method DropPage(d: int, v: int, ghost m0: Mem) returns (there: bool)
      requires Valid() && Child(m0, State(), d, 0) && 0 <= v < KERNPAGE
      modifies this
      ensures Valid() && State() == DeallocAt(old(State()), d, v)
      ensures v + (if there then 1 else NENT) == DeallocNext(old(State()), d, v)
    {
      ghost var m := State();
      assert RefAt(m, d, Directory) && PageAt(m, d) && RefAt(m, d, TableOf(Pdx(v)));
      PageNumber(v, v);
      DeallocTurn(m0, m, d, v);
      var pde := pages[d][Pdx(v)];
      if !Present(pde) {
        return false;
      }
      var t := Frame(pde);
      assert PageAt(m, t);
      var pte := pages[t][Ptx(v)];
      if Present(pte) {
        DropCommutes(m, d, v);
        assert RefAt(m, d, PageOf(v)) && InjAt(m, d, PageOf(v), TableOf(Pdx(v))) && InjAt(m, d, PageOf(v), Directory);
        hide Pdx, Ptx, Present, Frame;
        Kfree(Frame(pte));
        pages := pages[t := pages[t][Ptx(v) := 0]];
      }
      return true;
    }

    method Freevm(d: int, ghost m0: Mem)
      requires Valid() && Child(m0, State(), d, 0)
      modifies this
      ensures Valid() && State() == AddressSpace.Freevm(old(State()), d)
    {
      hide Dealloc, Child, FreeTables, Shape;
      FreevmParts(m0, State(), d);
      var sz := Deallocuvm(d, KERNBASE, 0, m0);
      FreeDirectory(d, m0);
      LowNotZero(State());
      Kfree(d);
    }

    /** Its loop over the directory. */
    method FreeDirectory(d: int, ghost m0: Mem)
      requires Valid() && Tearing(m0, State(), d, 0)
      modifies this
      ensures Valid() && Tearing(m0, State(), d, NENT) && State() == FreeTables(old(State()), d, 0)
    {
      hide Tearing, FreeTables, Shape;
      ghost var m := State();
      var p := 0;
      while p < NENT
        invariant 0 <= p <= NENT && Valid() && Tearing(m0, State(), d, p)
        invariant FreeTables(m, d, 0) == FreeTables(State(), d, p)
      {
        TearTurn(m0, State(), d, p);
        var pde := pages[d][p];
        if Present(pde) {
          Kfree(Frame(pde));
        }
        p := p + 1;
      }
      FreeTablesEnd(State(), d);
    }

    /** copyuvm, its size in bytes: the frame of the child's directory, or 0. */
    method Copyuvm(pg: int, sz: int, kmap: seq<Kmap>) returns (d: int)
      requires Valid() && ValidKmap(kmap) && Parent(State(), pg, PagesUp(sz)) && 0 <= sz
      modifies this
      ensures Valid()
      ensures var r := CopyUvm(old(State()), pg, PagesUp(sz), kmap);
        State() == r.m && d == if r.CopyOk? then r.d else 0
    {
      hide *;
      ghost var m0 := State();
      ghost var n := PagesUp(sz);
      ValidShape();
      CopyUvmUnfolds(m0, pg, n, kmap);
      d := Setupkvm(kmap);
      if d == 0 {
        return;
      }
      ghost var m1 := State();
      CopyStart(m0, m1, pg, d, n, kmap);
      CopyLoopOutcome(m0, m1, pg, d, 0, n);
      var i, p := 0, 0;
      while i < sz
        invariant 0 <= p && i == p * PGSIZE && Valid() && CopyInv(m0, State(), pg, d, p, n)
        invariant CopyLoop(m1, pg, d, 0, n) == CopyLoop(State(), pg, d, p, n)
        decreases n - p
      {
        PagesUpIs(sz, p);
        var ok := CopyPage(pg, d, p, m0, n);
        if !ok {
          FreeFailed(m0, m1, pg, d, n, State());
          Freevm(d, FailedFrom(m0, CopyLoop(m1, pg, d, 0, n)));
          return 0;
        }
        i, p := i + PGSIZE, p + 1;
      }
      PagesUpIs(sz, p);
      CopyLoopEnd(State(), pg, d, p, n);
    }

    /** One turn of its loop; on failure the state is the one before the cleanup. */
    method CopyPage(pg: int, d: int, v: int, ghost m0: Mem, ghost n: int) returns (ok: bool)
      requires Valid() && CopyInv(m0, State(), pg, d, v, n) && v < n
      modifies this
      ensures Valid()
      ensures ok ==> CopyInv(m0, State(), pg, d, v + 1, n)
      ensures ok ==> CopyLoop(old(State()), pg, d, v, n) == CopyLoop(State(), pg, d, v + 1, n)
      ensures !ok ==> var r := CopyLoop(old(State()), pg, d, v, n); !r.Copied? && State() == r.m
    {
      ghost var m := State();
      ParentSame(m0, m, d, pg, n, v);
      CopyTurn(m0, m, pg, d, v, n);
      if free != [] { CopyTake(m0, m, pg, d, v, n); }
      var pte := ReadPte(pg, v, m0, n, d);
      var content := pages[Frame(pte)];
      var mem := TakePage(content);
      if mem == 0 {
        return false;
      }
      hide CopyInv, Child, MapPage;
      LooseFresh(m0, State(), d, v, mem);
      ok := MapOne(d, v, mem, Flags(pte));
    }

    /** walkpgdir without alloc, for a page of the parent. */
    method ReadPte(pg: int, v: int, ghost m0: Mem, ghost n: int, ghost d: int) returns (pte: int)
      requires Child(m0, State(), d, 0) && Parent(m0, pg, n) && 0 <= v < n
      ensures pte == Pte(State(), pg, v)
    {
      assert ParentAt(m0, pg, v);
      PageNumber(v, v);
      ghost var t := Table(m0, pg, Pdx(v));
      assert OutAt(m0, State(), pg) && OutAt(m0, State(), t) && PageAt(State(), pg) && PageAt(State(), t);
      var pde := pages[pg][Pdx(v)];
      pte := pages[Frame(pde)][Ptx(v)];
    }

    /** allocuvm, sizes in bytes: the new size, or 0.  The result of mappages is dropped. */
    method Allocuvm(d: int, oldsz: int, newsz: int, ghost m0: Mem) returns (sz: int)
      requires Valid() && Child(m0, State(), d, 0) && 0 <= oldsz
      requires forall v :: PagesUp(oldsz) <= v < KERNPAGE ==> !Present(Pte(State(), d, v))
      modifies this
      ensures Valid()
      ensures if newsz >= KERNBASE then sz == 0 && State() == old(State())
        else if newsz < oldsz then sz == oldsz && State() == old(State())
        else
          var g := AllocLoop(old(State()), d, PagesUp(oldsz), PagesUp(newsz), 0);
          if g.Grew? then sz == newsz && State() == g.m
          else
            && sz == 0 && State() == Dealloc(g.m, d, PagesUp(oldsz), PagesUp(newsz))
            && RolledBack(old(State()), State(), d, PagesUp(oldsz), PagesUp(newsz))
            && forall f :: f in old(free) <==> f in free || TableAdded(old(State()), State(), d, f) || (f == g.lost && f != 0)
    {
      hide AllocLoop, Dealloc, MapPage, Child, Pte, Shape, Growing, PagesUp, Present, GrowInv, RolledBack, TableAdded;
      if newsz >= KERNBASE {
        return 0;
      }
      if newsz < oldsz {
        return oldsz;
      }
      ghost var m := State();
      var a := PagesUp(oldsz);
      ghost var e := PagesUp(newsz);
      ghost var start := a;
      ghost var lost := 0;
      GrowStart(m0, m, d, oldsz, newsz);
      while a * PGSIZE < newsz
        invariant start <= a && Valid()
        invariant AllocLoop(m, d, start, e, 0) == AllocLoop(State(), d, a, e, lost)
        invariant Growing(m0, State(), d, start, a, e, lost)
        decreases e - a
      {
        PagesUpIs(newsz, a);
        GrowTurn(m0, State(), d, start, a, e, lost);
        var mem := TakePage(ZeroPage());
        if mem == 0 {
          GrowFails(m0, State(), d, start, a, e, lost);
          AllocFailure(m0, m, d, start, e);
          var r := Deallocuvm(d, newsz, oldsz, if lost == 0 then m0 else Without(m0, State(), lost));
          return 0;
        }
        LooseFresh(m0, State(), d, a, mem);
        var ok := MapOne(d, a, mem, PTE_W + PTE_U);
        if !ok { lost := mem; }
        a := a + 1;
      }
      PagesUpIs(newsz, a);
      GrowEnd(State(), d, a, e, lost);
      return newsz;
    }
  }

  /** Frame f is allocated and in no place of the address space. */
  ghost predicate Unheld(m: Mem, d: int, f: int)
  {
    m.lo <= f < |m.pages| && f !in m.free && !Held(m, d, f)
  }

  /** Page v can be mapped: it is not mapped yet, and a user page gets a frame of its own. */
  ghost predicate CanMap(m: Mem, d: int, v: int, frame: int)
  {
    0 <= v < NPAGES && !Present(Pte(m, d, v)) && (v < KERNPAGE ==> Unheld(m, d, frame))
  }

  /** The pages of k can be mapped. */
  ghost predicate MapsOk(m: Mem, d: int, k: Kmap)
  {
    0 <= k.perm < PGSIZE && forall u :: Covers(k, u) ==> CanMap(m, d, u, k.frame + (u - k.v))
  }

  lemma WalkSpace(m: Mem, d: int, v: int)
    requires Space(m, d) && 0 <= v < NPAGES
    ensures var w := Walk(m, d, v);
      if w.Done? then Space(w.m, d) && HasTable(w.m, d, v) && forall u :: Pte(w.m, d, u) == Pte(m, d, u)
      else w.m == m && m.free == []
  {
    if Table(m, d, Pdx(v)) == 0 && m.free != [] {
      PageNumber(v, v);
      ReadyForTable(m, d, Pdx(v));
      NewTableSpace(m, d, Pdx(v));
      NewTableTable(m, d, Pdx(v), Pdx(v));
      forall u ensures Pte(NewTable(m, d, Pdx(v)), d, u) == Pte(m, d, u) { NewTablePte(m, d, Pdx(v), u); }
    }
  }

  lemma WalkUnheld(m: Mem, d: int, v: int, f: int)
    requires Space(m, d) && 0 <= v < NPAGES && Unheld(m, d, f)
    ensures Unheld(Walk(m, d, v).m, d, f)
  {
    if Table(m, d, Pdx(v)) == 0 && m.free != [] {
      PageNumber(v, v);
      ReadyForTable(m, d, Pdx(v));
      NewTableHeld(m, d, Pdx(v), f);
      assert m.free == [m.free[0]] + NewTable(m, d, Pdx(v)).free;
    }
  }

  /** Mapping a page keeps the address space sound, and other frames unheld. */
  lemma MapPageSpace(m: Mem, d: int, v: int, frame: int, perm: int, f: int)
    requires Space(m, d) && CanMap(m, d, v, frame) && 0 <= perm < PGSIZE
    ensures var w := MapPage(m, d, v, frame, perm);
      if w.NoTable? then w.m == m && m.free == []
      else
        && Space(w.m, d)
        && (forall u :: Pte(w.m, d, u) == if u == v then Entry(frame, WithP(perm)) else Pte(m, d, u))
        && (Unheld(m, d, f) && f != frame ==> Unheld(w.m, d, f))
  {
    WalkSpace(m, d, v);
    var w := Walk(m, d, v);
    if w.NoTable? { return; }
    var e := Entry(frame, WithP(perm));
    EntryParts(frame, WithP(perm));
    if v < KERNPAGE {
      WalkUnheld(m, d, v, frame);
      LowNotZero(w.m);
      forall at ensures Ref(w.m, d, at) != frame { HeldNowhere(w.m, d, frame, at); }
    }
    SetPteSpace(w.m, d, v, e);
    if Unheld(m, d, f) {
      WalkUnheld(m, d, v, f);
      SetPteHeld(w.m, d, v, e, f);
    }
    hide SetPte, Walk, Space, Held, Present, Frame;
    forall u ensures Pte(SetPte(w.m, d, v, e), d, u) == if u == v then e else Pte(m, d, u) {
      SetPteIs(w.m, d, v, e, u);
    }
  }

  lemma MapTurn(m: Mem, d: int, k: Kmap)
    requires Space(m, d) && MapsOk(m, d, k) && k.n > 0
    ensures CanMap(m, d, k.v, k.frame) && 0 <= k.perm < PGSIZE
    ensures var w := MapPage(m, d, k.v, k.frame, k.perm); var k' := Kmap(k.v + 1, k.frame + 1, k.n - 1, k.perm);
      && MapRange(m, d, k) == (if w.NoTable? then w else MapRange(w.m, d, k'))
      && (w.Done? ==> MapsOk(w.m, d, k'))
  {
    assert Covers(k, k.v);
    var w := MapPage(m, d, k.v, k.frame, k.perm);
    var k' := Kmap(k.v + 1, k.frame + 1, k.n - 1, k.perm);
    hide MapPage, Space, CanMap;
    forall u | Covers(k', u) && w.Done? ensures CanMap(w.m, d, u, k'.frame + (u - k'.v)) {
      assert Covers(k, u);
      CanMapStill(m, d, k.v, k.frame, k.perm, u, k.frame + (u - k.v));
    }
  }

  lemma CanMapStill(m: Mem, d: int, v: int, frame: int, perm: int, u: int, f: int)
    requires Space(m, d) && CanMap(m, d, v, frame) && 0 <= perm < PGSIZE && CanMap(m, d, u, f) && u != v && f != frame
    requires MapPage(m, d, v, frame, perm).Done?
    ensures CanMap(MapPage(m, d, v, frame, perm).m, d, u, f)
  {
    MapPageSpace(m, d, v, frame, perm, f);
    hide MapPage, Space, Pte, Unheld, Present;
  }

  lemma LooseFresh(m0: Mem, m: Mem, d: int, v: int, loose: int)
    requires Child(m0, m, d, loose) && loose != 0 && 0 <= v < KERNPAGE && !Present(Pte(m, d, v))
    ensures Space(m, d) && CanMap(m, d, v, loose)
  {
  }

  /** setupkvm maps no page twice. */
  lemma KmapTurn(m0: Mem, m: Mem, d: int, kmap: seq<Kmap>, x: int)
    requires Child(m0, m, d, 0) && ValidKmap(kmap) && 0 <= x < |kmap|
    requires forall y, u :: x <= y < |kmap| && Covers(kmap[y], u) ==> !Present(Pte(m, d, u))
    ensures Space(m, d) && MapsOk(m, d, kmap[x])
    ensures var w := MapRange(m, d, kmap[x]);
      && MapAll(m, d, kmap[x..]) == (if w.NoTable? then w else MapAll(w.m, d, kmap[x + 1..]))
      && (w.Done? ==> Child(m0, w.m, d, 0))
      && (w.Done? ==> forall y, u :: x + 1 <= y < |kmap| && Covers(kmap[y], u) ==> !Present(Pte(w.m, d, u)))
  {
    MapRangeKeeps(m0, m, d, kmap[x]);
    assert kmap[x..][1..] == kmap[x + 1..];
    hide MapRange, Child, Pte;
  }

  lemma PagesUpNat(n: int)
    requires 0 <= n
    ensures 0 <= PagesUp(n)
  {
  }

  lemma DeallocUnfolds(m: Mem, d: int, a: int, e: int)
    ensures Dealloc(m, d, a, e) == if a >= e then m else Dealloc(DeallocAt(m, d, a), d, DeallocNext(m, d, a), e)
  {
  }

  lemma FreevmParts(m0: Mem, m: Mem, d: int)
    requires Child(m0, m, d, 0)
    ensures Tearing(m0, Dealloc(m, d, 0, KERNPAGE), d, 0)
    ensures PagesUp(0) == 0 && PagesUp(KERNBASE) == KERNPAGE
  {
    DeallocKeeps(m0, m, d, 0, KERNPAGE);
    DeallocClearsIff(m0, m, d, 0, KERNPAGE);
    TearStart(m0, Dealloc(m, d, 0, KERNPAGE), d);
  }

  lemma TearTurn(m0: Mem, m: Mem, d: int, p: int)
    requires Tearing(m0, m, d, p) && 0 <= p < NENT
    ensures 0 <= d < |m.pages| && |m.pages[d]| == NENT
    ensures var w := m.pages[d][p];
      if Present(w) then
        && m.lo <= Frame(w) < |m.pages| && Frame(w) !in m.free
        && Tearing(m0, Kfree(m, Frame(w)), d, p + 1) && FreeTables(m, d, p) == FreeTables(Kfree(m, Frame(w)), d, p + 1)
      else Tearing(m0, m, d, p + 1) && FreeTables(m, d, p) == FreeTables(m, d, p + 1)
  {
    TearStep(m0, m, d, p);
    LowNotZero(m);
    assert PageAt(m, d) && TableSound(m, d, p, p);
  }

  lemma FreeTablesEnd(m: Mem, d: int)
    ensures FreeTables(m, d, NENT) == m
  {
  }

  lemma CopyUvmUnfolds(m: Mem, pg: int, n: int, kmap: seq<Kmap>)
    ensures var s := SetupKvm(m, kmap);
      CopyUvm(m, pg, n, kmap) == if s.SetupFailed? then CopyFailed(s.m)
      else var r := CopyLoop(s.m, pg, s.d, 0, n);
           if r.Copied? then CopyOk(r.m, r.d) else CopyFailed(AddressSpace.Freevm(r.m, r.d))
  {
  }

  lemma CopyStart(m0: Mem, m: Mem, pg: int, d: int, n: int, kmap: seq<Kmap>)
    requires Shape(m0) && ValidKmap(kmap) && Parent(m0, pg, n) && SetupKvm(m0, kmap) == SetupDone(m, d)
    ensures CopyInv(m0, m, pg, d, 0, n) && 0 <= n
  {
    SetupKvmOutcome(m0, kmap);
    assert !Present(0);
    UserEmpty(kmap);
  }

  lemma CopyLoopEnd(m: Mem, pg: int, d: int, i: int, n: int)
    requires i >= n
    ensures CopyLoop(m, pg, d, i, n) == Copied(m, d)
  {
  }

  /** The memory against which a failed copy is accounted for. */
  ghost function FailedFrom(m0: Mem, r: Copy): Mem
  {
    if r.NoTables? then Without(m0, r.m, r.lost) else m0
  }

  lemma FreeFailed(m0: Mem, m1: Mem, pg: int, d: int, n: int, m: Mem)
    requires CopyResult(m0, m1, pg, d, n, CopyLoop(m1, pg, d, 0, n))
    requires !CopyLoop(m1, pg, d, 0, n).Copied? && CopyLoop(m1, pg, d, 0, n).m == m
    ensures Child(FailedFrom(m0, CopyLoop(m1, pg, d, 0, n)), m, d, 0) && CopyLoop(m1, pg, d, 0, n).d == d
  {
    var r := CopyLoop(m1, pg, d, 0, n);
    if r.NoTables? { ForgetLoose(m0, m, d, r.lost); }
  }

  /** allocuvm's loop at page b: with no page lost all is mapped so far; after a loss no page is free. */
  ghost predicate Growing(m0: Mem, m: Mem, d: int, a: int, b: int, e: int, lost: int)
  {
    if lost == 0 then GrowInv(m0, m, d, a, b, e) else Child(m0, m, d, lost) && m.free == [] && 0 <= a <= b <= e <= KERNPAGE
  }

  lemma GrowStart(m0: Mem, m: Mem, d: int, oldsz: int, newsz: int)
    requires Child(m0, m, d, 0) && 0 <= oldsz <= newsz < KERNBASE
    requires forall v :: PagesUp(oldsz) <= v < KERNPAGE ==> !Present(Pte(m, d, v))
    ensures Growing(m0, m, d, PagesUp(oldsz), PagesUp(oldsz), PagesUp(newsz), 0)
    ensures GrowInv(m0, m, d, PagesUp(oldsz), PagesUp(oldsz), PagesUp(newsz))
    ensures newsz == oldsz ==> PagesUp(oldsz) == PagesUp(newsz)
  {
  }

  lemma GrowTurn(m0: Mem, m: Mem, d: int, a: int, b: int, e: int, lost: int)
    requires Growing(m0, m, d, a, b, e, lost) && b < e
    ensures 0 <= b < KERNPAGE
    ensures m.free == [] ==> AllocLoop(m, d, b, e, lost) == OutOfPages(m, lost)
    ensures m.free != [] ==>
      && lost == 0 && 0 <= m.free[0] < |m.pages| && m.free[0] != 0
      && var m1 := Take(m, ZeroPage());
         && Child(m0, m1, d, m.free[0]) && !Present(Pte(m1, d, b))
         && var r := MapPage(m1, d, b, m.free[0], PTE_W + PTE_U); var lost' := if r.Done? then 0 else m.free[0];
            && AllocLoop(m, d, b, e, lost) == AllocLoop(r.m, d, b + 1, e, lost')
            && Growing(m0, r.m, d, a, b + 1, e, lost')
  {
    if m.free != [] {
      GrowTake(m0, m, d, a, b, e);
      GrowStep(m0, m, d, a, b, e);
    }
  }

  lemma GrowEnd(m: Mem, d: int, b: int, e: int, lost: int)
    requires b >= e
    ensures AllocLoop(m, d, b, e, lost) == Grew(m, lost)
  {
  }

  lemma GrowFails(m0: Mem, m: Mem, d: int, a: int, b: int, e: int, lost: int)
    requires Growing(m0, m, d, a, b, e, lost)
    ensures Child(if lost == 0 then m0 else Without(m0, m, lost), m, d, 0)
  {
    if lost != 0 { ForgetLoose(m0, m, d, lost); }
  }
}
