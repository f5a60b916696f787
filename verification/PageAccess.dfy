/** What user code may do with a page: the two levels of the page table together. */
module PageAccess {
  import opened PageTable
  import opened AddressSpace

  predicate HasFlag(w: int, flag: int)
    requires flag > 0
  {
    Flags(w) / flag % 2 == 1
  }

  /** User code may read page v if both entries on the way are present and have PTE_U, and write it if both also
      have PTE_W. */
  predicate UserMay(m: Mem, d: int, v: int, write: bool)
  {
    var pde, pte := Word(m, d, Pdx(v)), Pte(m, d, v);
    && Present(pde) && Present(pte) && HasFlag(pde, PTE_U) && HasFlag(pte, PTE_U)
    && (write ==> HasFlag(pde, PTE_W) && HasFlag(pte, PTE_W))
  }

  /** What the entry of the page says on its own. */
  predicate EntryAllows(w: int, write: bool)
  {
    Present(w) && HasFlag(w, PTE_U) && (write ==> HasFlag(w, PTE_W))
  }

  predicate OpenAt(m: Mem, d: int, p: int)
  {
    Present(Word(m, d, p)) ==> Flags(Word(m, d, p)) == PTE_P + PTE_W + PTE_U
  }

  /** Every page table hangs in the directory with all permissions. */
  ghost predicate Open(m: Mem, d: int)
  {
    forall p {:trigger OpenAt(m, d, p)} :: OpenAt(m, d, p)
  }

  /** Then the entry of the page alone decides. */
  lemma EntryDecides(m: Mem, d: int, v: int, write: bool)
    requires Open(m, d) && 0 <= v < NPAGES
    ensures UserMay(m, d, v, write) <==> EntryAllows(Pte(m, d, v), write)
  {
    assert OpenAt(m, d, Pdx(v));
    assert !Present(0);
  }

  // ---- What keeps it so

  lemma TakeOpen(m: Mem, d: int, content: Page)
    requires Space(m, d) && Open(m, d) && m.free != [] && 0 <= m.free[0] < |m.pages|
    ensures Open(Take(m, content), d)
  {
    assert RefAt(m, d, Directory);
    forall p ensures OpenAt(Take(m, content), d, p) { assert OpenAt(m, d, p); }
  }

  lemma NewTableOpen(m: Mem, d: int, p: int)
    requires CanAddTable(m, d, p) && Open(m, d)
    ensures Open(NewTable(m, d, p), d)
  {
    EntryParts(m.free[0], PTE_P + PTE_W + PTE_U);
    assert RefAt(m, d, Directory);
    forall q ensures OpenAt(NewTable(m, d, p), d, q) { assert OpenAt(m, d, q); }
  }

  lemma SetPteOpen(m: Mem, d: int, v: int, w: int)
    requires HasTable(m, d, v) && Open(m, d)
    ensures Open(SetPte(m, d, v, w), d)
  {
    forall q ensures OpenAt(SetPte(m, d, v, w), d, q) { assert OpenAt(m, d, q); SetPteTable(m, d, v, w, q); }
  }

  lemma MapPageOpen(m0: Mem, m: Mem, d: int, loose: int, v: int, frame: int, perm: int)
    requires Child(m0, m, d, loose) && Open(m, d) && 0 <= v < NPAGES
    ensures Open(MapPage(m, d, v, frame, perm).m, d)
  {
    WalkKeeps(m0, m, d, loose, v);
    if Table(m, d, Pdx(v)) == 0 && m.free != [] {
      PageNumber(v, v);
      ReadyForTable(m, d, Pdx(v));
      NewTableOpen(m, d, Pdx(v));
    }
    var w := Walk(m, d, v);
    hide Open, SetPte, NewTable;
    if w.Done? { SetPteOpen(w.m, d, v, Entry(frame, WithP(perm))); }
  }

  lemma {:induction false} MapRangeOpen(m0: Mem, m: Mem, d: int, k: Kmap)
    requires Child(m0, m, d, 0) && Open(m, d) && KERNPAGE <= k.v && k.v + k.n <= NPAGES && 0 <= k.perm < PGSIZE
    ensures Open(MapRange(m, d, k).m, d)
    decreases k.n
  {
    if k.n > 0 {
      MapPageOpen(m0, m, d, 0, k.v, k.frame, k.perm);
      MapPageKeeps(m0, m, d, 0, k.v, k.frame, k.perm);
      hide MapPage, Child, Open;
      var w := MapPage(m, d, k.v, k.frame, k.perm);
      if w.Done? { MapRangeOpen(m0, w.m, d, Kmap(k.v + 1, k.frame + 1, k.n - 1, k.perm)); }
    }
  }

  lemma {:induction false} MapAllOpen(m0: Mem, m: Mem, d: int, kmap: seq<Kmap>)
    requires Child(m0, m, d, 0) && Open(m, d) && ValidKmap(kmap)
    ensures Open(MapAll(m, d, kmap).m, d)
    decreases |kmap|
  {
    if kmap != [] {
      MapRangeOpen(m0, m, d, kmap[0]);
      MapRangeKeeps(m0, m, d, kmap[0]);
      hide MapRange, Child, Open;
      var w := MapRange(m, d, kmap[0]);
      var rest := kmap[1..];
      assert forall x :: 0 <= x < |rest| ==> rest[x] == kmap[x + 1];
      if w.Done? { MapAllOpen(m0, w.m, d, rest); }
    }
  }

  lemma SetupOpen(m: Mem, kmap: seq<Kmap>)
    requires Shape(m) && ValidKmap(kmap)
    ensures var s := SetupKvm(m, kmap); s.SetupDone? ==> Open(s.m, s.d)
  {
    assert FreeAt(m, 0);
    if m.free != [] {
      EmptySpace(m);
      var m1 := Take(m, ZeroPage());
      forall p ensures OpenAt(m1, m.free[0], p) { }
      MapAllOpen(m, m1, m.free[0], kmap);
    }
  }

  lemma CopyTurnOpen(m0: Mem, m: Mem, pg: int, d: int, i: int, n: int)
    requires CopyInv(m0, m, pg, d, i, n) && Open(m, d) && i < n && m.free != []
    ensures 0 <= m.free[0] < |m.pages|
    ensures Open(MapPage(Take(m, CopyContent(m, pg, i)), d, i, m.free[0], Flags(Pte(m, pg, i))).m, d)
  {
    CopyTake(m0, m, pg, d, i, n);
    TakeOpen(m, d, CopyContent(m, pg, i));
    MapPageOpen(m0, Take(m, CopyContent(m, pg, i)), d, m.free[0], i, m.free[0], Flags(Pte(m, pg, i)));
  }

  lemma CopyLoopUnfolds(m: Mem, pg: int, d: int, i: int, n: int)
    requires m.free != [] ==> 0 <= m.free[0] < |m.pages|
    ensures i < n && m.free != [] ==>
      var r := MapPage(Take(m, CopyContent(m, pg, i)), d, i, m.free[0], Flags(Pte(m, pg, i)));
      CopyLoop(m, pg, d, i, n) == if r.NoTable? then NoTables(r.m, d, m.free[0]) else CopyLoop(r.m, pg, d, i + 1, n)
  {
  }

  lemma {:induction false} CopyLoopOpen(m0: Mem, m: Mem, pg: int, d: int, i: int, n: int)
    requires CopyInv(m0, m, pg, d, i, n) && Open(m, d)
    ensures Open(CopyLoop(m, pg, d, i, n).m, d)
    decreases n - i
  {
    hide *;
    CopyTurn(m0, m, pg, d, i, n);
    if i < n && m.free != [] {
      CopyTurnOpen(m0, m, pg, d, i, n);
      CopyLoopUnfolds(m, pg, d, i, n);
      var r := MapPage(Take(m, CopyContent(m, pg, i)), d, i, m.free[0], Flags(Pte(m, pg, i)));
      if r.Done? { CopyLoopOpen(m0, r.m, pg, d, i + 1, n); }
    } else {
      CopyLoopStops(m, pg, d, i, n);
    }
  }

  lemma CopyLoopStops(m: Mem, pg: int, d: int, i: int, n: int)
    requires i >= n || m.free == []
    ensures CopyLoop(m, pg, d, i, n).m == m
  {
  }

  lemma {:induction false} AllocLoopOpen(m0: Mem, m: Mem, d: int, a: int, b: int, e: int, lost: int)
    requires GrowInv(m0, m, d, a, b, e) && Open(m, d)
    ensures Open(AllocLoop(m, d, b, e, lost).m, d)
    decreases e - b
  {
    if b < e && m.free != [] {
      GrowTake(m0, m, d, a, b, e);
      GrowStep(m0, m, d, a, b, e);
      var m1 := Take(m, ZeroPage());
      TakeOpen(m, d, ZeroPage());
      MapPageOpen(m0, m1, d, m.free[0], b, m.free[0], PTE_W + PTE_U);
      hide MapPage, Child, Open, Take, Pte, Flags, Present, Frame;
      var r := MapPage(m1, d, b, m.free[0], PTE_W + PTE_U);
      if r.Done? { AllocLoopOpen(m0, r.m, d, a, b + 1, e, lost); }
    }
  }

  lemma DropOpen(m: Mem, d: int, v: int)
    requires HasTable(m, d, v) && v < KERNPAGE && Present(Pte(m, d, v)) && Open(m, d)
    ensures Open(Drop(m, d, v), d)
  {
    var f := Frame(Pte(m, d, v));
    var m1 := SetPte(m, d, v, 0);
    DropCommutes(m, d, v);
    SetPteOpen(m, d, v, 0);
    LowNotZero(m);
    assert Ref(m, d, PageOf(v)) == f && InjAt(m, d, PageOf(v), Directory);
    forall q ensures OpenAt(Kfree(m1, f), d, q) { assert OpenAt(m1, d, q); }
  }

  lemma {:induction false} DeallocOpen(m0: Mem, m: Mem, d: int, a: int, e: int)
    requires Child(m0, m, d, 0) && Open(m, d) && 0 <= a && e <= KERNPAGE
    ensures Open(Dealloc(m, d, a, e), d)
    decreases e - a
  {
    if a < e {
      DeallocTurn(m0, m, d, a);
      if Table(m, d, Pdx(a)) != 0 && Present(Pte(m, d, a)) { DropOpen(m, d, a); }
      hide Child, Pte, Table, Open, Drop, Present;
      DeallocOpen(m0, DeallocAt(m, d, a), d, DeallocNext(m, d, a), e);
    }
  }

  // ---- Results

  /** allocuvm: user code may read and write every new page, and do with the others what it could before. */
  lemma AllocAccess(m0: Mem, m: Mem, d: int, a: int, e: int)
    requires GrowInv(m0, m, d, a, a, e) && Open(m, d)
    ensures var g := AllocLoop(m, d, a, e, 0);
      && Open(g.m, d)
      && (g.Grew? && g.lost == 0 ==> forall v :: a <= v < e ==> UserMay(g.m, d, v, true) && UserMay(g.m, d, v, false))
      && forall v, write :: 0 <= v < NPAGES && !(a <= v < e) ==> UserMay(g.m, d, v, write) == UserMay(m, d, v, write)
  {
    AllocLoopOutcome(m0, m, d, a, a, e);
    AllocLoopOpen(m0, m, d, a, a, e, 0);
    hide AllocLoop, Child, Open, UserMay, Pte;
    var g := AllocLoop(m, d, a, e, 0);
    if g.Grew? && g.lost == 0 {
      forall v | a <= v < e ensures UserMay(g.m, d, v, true) && UserMay(g.m, d, v, false) {
        assert NewPageAt(g.m, d, v);
        FlagsTellPresent(Pte(g.m, d, v));
        EntryDecides(g.m, d, v, true);
        EntryDecides(g.m, d, v, false);
      }
    }
    forall v, write | 0 <= v < NPAGES && !(a <= v < e) ensures UserMay(g.m, d, v, write) == UserMay(m, d, v, write) {
      EntryDecides(g.m, d, v, write);
      EntryDecides(m, d, v, write);
    }
  }

  /** deallocuvm: user code may do nothing it could not do before, and outside the range all that it could. */
  lemma DeallocAccess(m0: Mem, m: Mem, d: int, a: int, e: int, v: int, write: bool)
    requires Child(m0, m, d, 0) && Open(m, d) && 0 <= a && e <= KERNPAGE && 0 <= v < NPAGES
    ensures var m' := Dealloc(m, d, a, e);
      && Open(m', d)
      && (UserMay(m', d, v, write) ==> UserMay(m, d, v, write))
      && (!(a <= v < e) ==> UserMay(m', d, v, write) == UserMay(m, d, v, write))
  {
    DeallocKeeps(m0, m, d, a, e);
    DeallocOpen(m0, m, d, a, e);
    hide Dealloc, Child, Open, UserMay, Pte, Table;
    EntryDecides(m, d, v, write);
    EntryDecides(Dealloc(m, d, a, e), d, v, write);
    assert !EntryAllows(0, write);
  }

  /** The kernel's mappings give user code nothing. */
  ghost predicate Private(kmap: seq<Kmap>)
  {
    forall x :: 0 <= x < |kmap| ==> kmap[x].perm == 0 || kmap[x].perm == PTE_W
  }

  lemma KernelMapPrivate(data: nat)
    requires 0x100 <= data <= 0xE000
    ensures Private(KernelMap(data))
  {
  }

  lemma SetupClosed(m: Mem, kmap: seq<Kmap>, v: int)
    requires Shape(m) && ValidKmap(kmap) && Private(kmap) && SetupKvm(m, kmap).SetupDone?
    ensures var s := SetupKvm(m, kmap); !EntryAllows(Pte(s.m, s.d, v), false)
  {
    SetupKvmOutcome(m, kmap);
    hide SetupKvm, Pte, Child;
    var s := SetupKvm(m, kmap);
    if x :| 0 <= x < |kmap| && Covers(kmap[x], v) {
      assert Maps(kmap[x], v, Pte(s.m, s.d, v));
      EntryParts(kmap[x].frame + (v - kmap[x].v), WithP(kmap[x].perm));
    } else {
      assert Pte(s.m, s.d, v) == 0;
    }
  }

  /** copyuvm: user code of the child may do with each page below n exactly what the flags of the parent's entry say,
      and nothing with any other page, the kernel's included. */
  lemma CopyAccess(m: Mem, pg: int, n: int, kmap: seq<Kmap>)
    requires Shape(m) && ValidKmap(kmap) && Private(kmap) && Parent(m, pg, n)
    ensures var r := CopyUvm(m, pg, n, kmap);
      r.CopyOk? ==>
        && Open(r.m, r.d)
        && (forall v, write :: 0 <= v < n ==> (UserMay(r.m, r.d, v, write) <==> EntryAllows(Pte(m, pg, v), write)))
        && (forall v, write :: n <= v < NPAGES ==> !UserMay(r.m, r.d, v, write))
  {
    SetupKvmOutcome(m, kmap);
    SetupOpen(m, kmap);
    var s, r := SetupKvm(m, kmap), CopyUvm(m, pg, n, kmap);
    if r.CopyOk? {
      assert CopyInv(m, s.m, pg, s.d, 0, n) by { assert !Present(0); UserEmpty(kmap); }
      CopyLoopOutcome(m, s.m, pg, s.d, 0, n);
      CopyLoopOpen(m, s.m, pg, s.d, 0, n);
      hide CopyLoop, SetupKvm, Pte, Freevm, Child, UserMay, Open;
      forall v, write | 0 <= v < n ensures UserMay(r.m, r.d, v, write) <==> EntryAllows(Pte(m, pg, v), write) {
        EntryDecides(r.m, r.d, v, write);
        assert CopiedAt(m, r.m, pg, r.d, v);
        FlagsTellPresent(Pte(m, pg, v));
        FlagsTellPresent(Pte(r.m, r.d, v));
      }
      forall v, write | n <= v < NPAGES ensures !UserMay(r.m, r.d, v, write) {
        EntryDecides(r.m, r.d, v, write);
        if v >= KERNPAGE { SetupClosed(m, kmap, v); }
      }
    }
  }

  // ---- The kernel's own view

  lemma KmapEntry(k: Kmap, u: int, w: int)
    requires Maps(k, u, w) && (k.perm == 0 || k.perm == PTE_W)
    ensures Present(w) && Frame(w) == k.frame + (u - k.v) && (HasFlag(w, PTE_W) <==> k.perm == PTE_W)
  {
    EntryParts(k.frame + (u - k.v), WithP(k.perm));
  }

  /** Which of the four mappings covers page u. */
  lemma KernelMapAt(data: nat, u: int) returns (x: int)
    requires 0x100 <= data <= 0xE000 && 0 <= u < NPAGES
    ensures -1 <= x < 4
    ensures if x == -1 then forall y :: 0 <= y < 4 ==> !Covers(KernelMap(data)[y], u) else Covers(KernelMap(data)[x], u)
    ensures var f := u - KERNPAGE;
      x == if 0 <= f < 0x100 then 0 else if 0x100 <= f < data then 1 else if data <= f < 0xE000 then 2
           else if 0xFE000 <= u then 3 else -1
  {
    var f := u - KERNPAGE;
    x := if 0 <= f < 0x100 then 0 else if 0x100 <= f < data then 1 else if data <= f < 0xE000 then 2
         else if 0xFE000 <= u then 3 else -1;
  }

  /** setupkvm's table, page by page: physical memory at KERNBASE, writable but for the kernel's text and read-only
      data; the devices where they are; nothing else; and nothing for user code. */
  lemma KernelView(m: Mem, data: nat, u: int)
    requires Shape(m) && 0x100 <= data <= 0xE000 && 0 <= u < NPAGES && SetupKvm(m, KernelMap(data)).SetupDone?
    ensures var s := SetupKvm(m, KernelMap(data)); var w := Pte(s.m, s.d, u); var f := u - KERNPAGE;
      && !UserMay(s.m, s.d, u, false)
      && (Present(w) <==> 0 <= f < 0xE000 || 0xFE000 <= u)
      && (0 <= f < 0xE000 ==> Frame(w) == f && (HasFlag(w, PTE_W) <==> f < 0x100 || data <= f))
      && (0xFE000 <= u ==> Frame(w) == u && HasFlag(w, PTE_W))
  {
    var kmap := KernelMap(data);
    var s := SetupKvm(m, kmap);
    var w := Pte(s.m, s.d, u);
    KernelMapValid(data);
    SetupKvmOutcome(m, kmap);
    SetupOpen(m, kmap);
    hide SetupKvm, Pte, Child, Open, UserMay, Maps, Frame, HasFlag, Flags, EntryAllows, Shape, ValidKmap, Covers;
    EntryDecides(s.m, s.d, u, false);
    SetupClosed(m, kmap, u);
    var x := KernelMapAt(data, u);
    if x != -1 {
      assert Maps(kmap[x], u, w);
      KmapEntry(kmap[x], u, w);
    } else {
      assert w == 0;
    }
  }
}
