/** vm.c: building, copying and freeing an address space, with every frame accounted for. */
module AddressSpace {
  import opened PageTable

  // ---- Accounting

  /** Frame f of the free list of m0 is still free, or held by the address space at d, or the loose page. */
  ghost predicate AcctAt(m0: Mem, m: Mem, d: int, loose: int, f: int)
  {
    f in m0.free <==> f in m.free || Held(m, d, f) || (f == loose && f != 0)
  }

  /** Pages that were not free in m0 are as they were. */
  predicate OutAt(m0: Mem, m: Mem, f: int)
  {
    0 <= f < |m0.pages| == |m.pages| && f !in m0.free ==> m.pages[f] == m0.pages[f]
  }

  /** m has an address space at d, made from pages that were free in m0; `loose` is a page taken and not
      yet mapped, or 0. */
  ghost predicate Child(m0: Mem, m: Mem, d: int, loose: int)
  {
    && Space(m, d) && m.lo == m0.lo && |m.pages| == |m0.pages|
    && (loose != 0 ==> m.lo <= loose < |m.pages| && loose !in m.free && !Held(m, d, loose))
    && (forall f {:trigger AcctAt(m0, m, d, loose, f)} :: AcctAt(m0, m, d, loose, f))
    && (forall f {:trigger OutAt(m0, m, f)} :: OutAt(m0, m, f))
  }

  lemma HeldIs(m: Mem, d: int, at: Place)
    ensures Ref(m, d, at) != 0 ==> Held(m, d, Ref(m, d, at))
  {
  }

  lemma HeldNowhere(m: Mem, d: int, f: int, at: Place)
    requires !Held(m, d, f) && f != 0
    ensures Ref(m, d, at) != f
  {
  }

  lemma NewTableHeld(m: Mem, d: int, p: int, f: int)
    requires CanAddTable(m, d, p)
    ensures Held(NewTable(m, d, p), d, f) <==> Held(m, d, f) || f == m.free[0]
  {
    var m' := NewTable(m, d, p);
    NewTableRef(m, d, p, TableOf(p));
    hide NewTable, Ref;
    if Held(m, d, f) {
      var at :| Ref(m, d, at) == f && f != 0;
      NewTableRef(m, d, p, at);
      assert Ref(m, d, TableOf(p)) == 0;
      assert Ref(m', d, at) == f;
    }
    if Held(m', d, f) {
      var at :| Ref(m', d, at) == f && f != 0;
      NewTableRef(m, d, p, at);
    }
    assert Ref(m', d, TableOf(p)) == m.free[0];
  }

  lemma NewTableChild(m0: Mem, m: Mem, d: int, loose: int, p: int)
    requires Child(m0, m, d, loose) && CanAddTable(m, d, p)
    ensures Child(m0, NewTable(m, d, p), d, loose)
  {
    var m' := NewTable(m, d, p);
    NewTableSpace(m, d, p);
    HeldIs(m, d, Directory);
    assert m.free == [m.free[0]] + m'.free;
    assert AcctAt(m0, m, d, loose, d) && AcctAt(m0, m, d, loose, m.free[0]) && RefAt(m, d, Directory);
    NewTableHeld(m, d, p, loose);
    hide Held, Space;
    forall f ensures AcctAt(m0, m', d, loose, f) {
      assert AcctAt(m0, m, d, loose, f);
      NewTableHeld(m, d, p, f);
    }
    forall f ensures OutAt(m0, m', f) { assert OutAt(m0, m, f); }
  }

  lemma TakeHeld(m: Mem, d: int, content: Page, f: int)
    requires Space(m, d) && m.free != [] && 0 <= m.free[0] < |m.pages|
    ensures Held(Take(m, content), d, f) <==> Held(m, d, f)
  {
    var m' := Take(m, content);
    hide Take, Ref;
    if Held(m, d, f) {
      var at :| Ref(m, d, at) == f && f != 0;
      TakeRef(m, d, content, 0, at);
      assert Ref(m', d, at) == f;
    }
    if Held(m', d, f) {
      var at :| Ref(m', d, at) == f && f != 0;
      TakeRef(m, d, content, 0, at);
      assert Ref(m, d, at) == f;
    }
  }

  /** A page taken for the address space is loose until it is mapped. */
  lemma TakeChild(m0: Mem, m: Mem, d: int, content: Page)
    requires Child(m0, m, d, 0) && m.free != [] && 0 <= m.free[0] < |m.pages| && |content| == NENT
    ensures Child(m0, Take(m, content), d, m.free[0]) && m.free[0] != 0
  {
    var m' := Take(m, content);
    var loose := m.free[0];
    TakeSpace(m, d, content);
    TakeShape(m, content);
    assert FreeAt(m, 0) && AcctAt(m0, m, d, 0, loose);
    TakeHeld(m, d, content, loose);
    HeldNotFree(m, d, loose);
    hide Held, Space;
    forall f ensures AcctAt(m0, m', d, loose, f) {
      assert AcctAt(m0, m, d, 0, f);
      TakeHeld(m, d, content, f);
    }
    forall f ensures OutAt(m0, m', f) { assert OutAt(m0, m, f); }
  }

  lemma HeldNotFree(m: Mem, d: int, f: int)
    requires Space(m, d)
    ensures Held(m, d, f) ==> f !in m.free && m.lo <= f < |m.pages|
  {
    if Held(m, d, f) {
      var at :| Ref(m, d, at) == f && f != 0;
      assert RefAt(m, d, at);
    }
  }

  lemma SetPteHeld(m: Mem, d: int, v: int, w: int, f: int)
    requires HasTable(m, d, v) && (v < KERNPAGE ==> Present(w) && !Present(Pte(m, d, v)) && Frame(w) != 0)
    ensures Held(SetPte(m, d, v, w), d, f) <==> Held(m, d, f) || (v < KERNPAGE && f == Frame(w))
  {
    var m' := SetPte(m, d, v, w);
    SetPteRef(m, d, v, w, PageOf(v));
    assert v < KERNPAGE ==> Ref(m, d, PageOf(v)) == 0;
    hide SetPte, Ref, Present, Frame, Pte;
    if Held(m, d, f) {
      var at :| Ref(m, d, at) == f && f != 0;
      SetPteRef(m, d, v, w, at);
      assert Ref(m', d, at) == f;
    }
    if Held(m', d, f) {
      var at :| Ref(m', d, at) == f && f != 0;
      SetPteRef(m, d, v, w, at);
      assert at == PageOf(v) || Ref(m, d, at) == f;
    }
    if v < KERNPAGE { assert Ref(m', d, PageOf(v)) == Frame(w); }
  }

  /** Mapping the loose page at a user page, or anything at a kernel page. */
  lemma SetPteChild(m0: Mem, m: Mem, d: int, loose: int, v: int, w: int)
    requires Child(m0, m, d, loose) && HasTable(m, d, v)
    requires v < KERNPAGE ==> Present(w) && !Present(Pte(m, d, v)) && Frame(w) == loose && loose != 0
    ensures Child(m0, SetPte(m, d, v, w), d, if v < KERNPAGE then 0 else loose)
  {
    var m' := SetPte(m, d, v, w);
    var t := Table(m, d, Pdx(v));
    var loose' := if v < KERNPAGE then 0 else loose;
    if v < KERNPAGE {
      forall at ensures Ref(m, d, at) != Frame(w) { HeldNowhere(m, d, loose, at); }
    }
    SetPteSpace(m, d, v, w);
    HeldIs(m, d, TableOf(Pdx(v)));
    assert AcctAt(m0, m, d, loose, t);
    SetPteHeld(m, d, v, w, loose);
    hide Held, Space, Present, Frame, Pdx, Ptx, Table, Pte;
    forall f ensures AcctAt(m0, m', d, loose', f) {
      assert AcctAt(m0, m, d, loose, f);
      SetPteHeld(m, d, v, w, f);
    }
    forall f ensures OutAt(m0, m', f) { assert OutAt(m0, m, f); }
  }

  // ---- mappages

  datatype Mapping = Done(m: Mem) | NoTable(m: Mem)

  /** walkpgdir with alloc set. */
  function Walk(m: Mem, d: int, v: int): Mapping
  {
    if Table(m, d, Pdx(v)) != 0 then Done(m)
    else if m.free != [] && 0 <= m.free[0] < |m.pages| && 0 <= d < |m.pages| && 0 <= Pdx(v) < NENT
            && d != m.free[0] && |m.pages[d]| == NENT
    then Done(NewTable(m, d, Pdx(v)))
    else NoTable(m)
  }

  /** One turn of mappages, for a page that is not mapped. */
  function MapPage(m: Mem, d: int, v: int, frame: int, perm: int): Mapping
  {
    var w := Walk(m, d, v);
    if w.NoTable? then w else Done(SetPte(w.m, d, v, Entry(frame, WithP(perm))))
  }

  lemma WalkKeeps(m0: Mem, m: Mem, d: int, loose: int, v: int)
    requires Child(m0, m, d, loose) && 0 <= v < NPAGES
    ensures var w := Walk(m, d, v);
      if w.Done? then Child(m0, w.m, d, loose) && HasTable(w.m, d, v) && forall u :: Pte(w.m, d, u) == Pte(m, d, u)
      else w.m == m && m.free == []
  {
    if Table(m, d, Pdx(v)) == 0 && m.free != [] {
      PageNumber(v, v);
      ReadyForTable(m, d, Pdx(v));
      NewTableChild(m0, m, d, loose, Pdx(v));
      NewTableTable(m, d, Pdx(v), Pdx(v));
      forall u ensures Pte(NewTable(m, d, Pdx(v)), d, u) == Pte(m, d, u) { NewTablePte(m, d, Pdx(v), u); }
    }
  }

  lemma MapPageKeeps(m0: Mem, m: Mem, d: int, loose: int, v: int, frame: int, perm: int)
    requires Child(m0, m, d, loose) && 0 <= v < NPAGES && 0 <= perm < PGSIZE
    requires v < KERNPAGE ==> !Present(Pte(m, d, v)) && frame == loose && loose != 0
    ensures var w := MapPage(m, d, v, frame, perm);
      if w.NoTable? then w.m == m && m.free == []
      else
        && Child(m0, w.m, d, if v < KERNPAGE then 0 else loose)
        && forall u :: Pte(w.m, d, u) == if u == v then Entry(frame, WithP(perm)) else Pte(m, d, u)
  {
    WalkKeeps(m0, m, d, loose, v);
    var w := Walk(m, d, v);
    if w.Done? {
      var e := Entry(frame, WithP(perm));
      EntryParts(frame, WithP(perm));
      SetPteChild(m0, w.m, d, loose, v, e);
      hide SetPte, Walk, Child;
      forall u ensures Pte(SetPte(w.m, d, v, e), d, u) == if u == v then e else Pte(m, d, u) {
        SetPteIs(w.m, d, v, e, u);
      }
    }
  }

  /** mappages makes no table but the page's own. */
  lemma MapPageTable(m0: Mem, m: Mem, d: int, loose: int, v: int, frame: int, perm: int, q: int)
    requires Child(m0, m, d, loose) && 0 <= v < NPAGES && q != Pdx(v)
    ensures Table(MapPage(m, d, v, frame, perm).m, d, q) == Table(m, d, q)
  {
    WalkKeeps(m0, m, d, loose, v);
    PageNumber(v, v);
    var w := Walk(m, d, v);
    if Table(m, d, Pdx(v)) == 0 && m.free != [] {
      ReadyForTable(m, d, Pdx(v));
      NewTableTable(m, d, Pdx(v), q);
    }
    if w.Done? { SetPteTable(w.m, d, v, Entry(frame, WithP(perm)), q); }
  }

  // ---- setupkvm

  /** n pages from page v on, mapped to the frames from `frame` on. */
  datatype Kmap = Kmap(v: int, frame: int, n: nat, perm: int)

  predicate Covers(k: Kmap, u: int)
  {
    k.v <= u < k.v + k.n
  }

  /** Kernel mappings: above KERNBASE, and no page twice. */
  ghost predicate ValidKmap(kmap: seq<Kmap>)
  {
    && (forall x :: 0 <= x < |kmap| ==>
          KERNPAGE <= kmap[x].v && kmap[x].v + kmap[x].n <= NPAGES && 0 <= kmap[x].perm < PGSIZE)
    && forall x, y, u :: 0 <= x < y < |kmap| && Covers(kmap[x], u) ==> !Covers(kmap[y], u)
  }

  /** The kernel's own mappings, its data starting at page `data` of physical memory. */
  function KernelMap(data: nat): seq<Kmap>
    requires 0x100 <= data <= 0xE000
  {
    [ Kmap(KERNPAGE, 0, 0x100, PTE_W), Kmap(KERNPAGE + 0x100, 0x100, data - 0x100, 0),
      Kmap(KERNPAGE + data, data, 0xE000 - data, PTE_W), Kmap(0xFE000, 0xFE000, 0x2000, PTE_W) ]
  }

  lemma KernelMapValid(data: nat)
    requires 0x100 <= data <= 0xE000
    ensures ValidKmap(KernelMap(data))
  {
  }

  function MapRange(m: Mem, d: int, k: Kmap): Mapping
    decreases k.n
  {
    if k.n == 0 then Done(m)
    else
      var w := MapPage(m, d, k.v, k.frame, k.perm);
      if w.NoTable? then w else MapRange(w.m, d, Kmap(k.v + 1, k.frame + 1, k.n - 1, k.perm))
  }

  function MapAll(m: Mem, d: int, kmap: seq<Kmap>): Mapping
    decreases |kmap|
  {
    if kmap == [] then Done(m)
    else
      var w := MapRange(m, d, kmap[0]);
      if w.NoTable? then w else MapAll(w.m, d, kmap[1..])
  }

  /** The entry that kmap gives page u. */
  ghost predicate Maps(k: Kmap, u: int, w: int)
  {
    Covers(k, u) && w == Entry(k.frame + (u - k.v), WithP(k.perm))
  }

  lemma {:induction false} MapRangeKeeps(m0: Mem, m: Mem, d: int, k: Kmap)
    requires Child(m0, m, d, 0) && KERNPAGE <= k.v && k.v + k.n <= NPAGES && 0 <= k.perm < PGSIZE
    ensures var w := MapRange(m, d, k);
      && Child(m0, w.m, d, 0)
      && (w.NoTable? ==> w.m.free == [])
      && (w.Done? ==> forall u :: if Covers(k, u) then Maps(k, u, Pte(w.m, d, u)) else Pte(w.m, d, u) == Pte(m, d, u))
    decreases k.n
  {
    if k.n > 0 {
      MapPageKeeps(m0, m, d, 0, k.v, k.frame, k.perm);
      hide MapPage, Child, Pte, Entry, WithP;
      var w := MapPage(m, d, k.v, k.frame, k.perm);
      if w.Done? {
        MapRangeKeeps(m0, w.m, d, Kmap(k.v + 1, k.frame + 1, k.n - 1, k.perm));
      }
    }
  }

  lemma {:induction false} MapAllKeeps(m0: Mem, m: Mem, d: int, kmap: seq<Kmap>)
    requires Child(m0, m, d, 0) && ValidKmap(kmap)
    ensures var w := MapAll(m, d, kmap);
      && Child(m0, w.m, d, 0)
      && (w.NoTable? ==> w.m.free == [])
      && (w.Done? ==>
            forall u :: (forall x :: 0 <= x < |kmap| ==> !Covers(kmap[x], u)) ==> Pte(w.m, d, u) == Pte(m, d, u))
      && (w.Done? ==> forall x, u :: 0 <= x < |kmap| && Covers(kmap[x], u) ==> Maps(kmap[x], u, Pte(w.m, d, u)))
    decreases |kmap|
  {
    if kmap != [] {
      MapRangeKeeps(m0, m, d, kmap[0]);
      hide MapRange, Child, Pte, Entry, WithP, Maps;
      var w := MapRange(m, d, kmap[0]);
      if w.Done? {
        var rest := kmap[1..];
        assert forall x :: 0 <= x < |rest| ==> rest[x] == kmap[x + 1];
        assert ValidKmap(rest);
        MapAllKeeps(m0, w.m, d, rest);
        var w' := MapAll(w.m, d, rest);
        if w'.Done? {
          forall x, u | 0 <= x < |kmap| && Covers(kmap[x], u) ensures Maps(kmap[x], u, Pte(w'.m, d, u)) {
            if x > 0 { assert kmap[x] == rest[x - 1]; }
          }
        }
      }
    }
  }

  datatype Setup = SetupDone(m: Mem, d: int) | SetupFailed(m: Mem)

  function SetupKvm(m: Mem, kmap: seq<Kmap>): Setup
  {
    if m.free == [] || !(0 <= m.free[0] < |m.pages|) then SetupFailed(m)
    else
      var d := m.free[0];
      var w := MapAll(Take(m, ZeroPage()), d, kmap);
      if w.NoTable? then SetupFailed(w.m) else SetupDone(w.m, d)
  }

  /** A zeroed page is an empty address space. */
  lemma EmptySpace(m: Mem)
    requires Shape(m) && m.free != [] && 0 <= m.free[0] < |m.pages|
    ensures Child(m, Take(m, ZeroPage()), m.free[0], 0)
    ensures forall u :: Pte(Take(m, ZeroPage()), m.free[0], u) == 0
  {
    var d := m.free[0];
    var m' := Take(m, ZeroPage());
    TakeShape(m, ZeroPage());
    assert FreeAt(m, 0);
    assert forall p :: Table(m', d, p) == 0;
    hide Shape, Pdx, Ptx;
    assert forall at :: Ref(m', d, at) == if at == Directory then d else 0;
    forall at ensures RefAt(m', d, at) { }
    forall at, bt ensures InjAt(m', d, at, bt) { }
    forall f ensures AcctAt(m, m', d, 0, f) { assert Held(m', d, f) <==> f == d by { assert Ref(m', d, Directory) == d; } }
    forall f ensures OutAt(m, m', f) { }
  }

  /** setupkvm: a directory with exactly the kernel's mappings, from free pages.  If it fails, every page that
      was free is lost: the free list is empty. */
  lemma SetupKvmOutcome(m: Mem, kmap: seq<Kmap>)
    requires Shape(m) && ValidKmap(kmap)
    ensures var s := SetupKvm(m, kmap);
      if s.SetupFailed? then s.m.free == []
      else
        && Child(m, s.m, s.d, 0)
        && (forall x, u :: 0 <= x < |kmap| && Covers(kmap[x], u) ==> Maps(kmap[x], u, Pte(s.m, s.d, u)))
        && forall u :: (forall x :: 0 <= x < |kmap| ==> !Covers(kmap[x], u)) ==> Pte(s.m, s.d, u) == 0
  {
    assert FreeAt(m, 0);
    if m.free != [] {
      EmptySpace(m);
      MapAllKeeps(m, Take(m, ZeroPage()), m.free[0], kmap);
    }
  }

  // ---- copyuvm

  datatype Copy = Copied(m: Mem, d: int) | NoData(m: Mem, d: int) | NoTables(m: Mem, d: int, lost: int)

  /** The bytes of page i of the address space at pg. */
  function CopyContent(m: Mem, pg: int, i: int): Page
  {
    var f := Frame(Pte(m, pg, i));
    if 0 <= f < |m.pages| then m.pages[f] else ZeroPage()
  }

  /** The loop of copyuvm, from page i to page n; the failures are before the cleanup. */
  function CopyLoop(m: Mem, pg: int, d: int, i: int, n: int): Copy
    decreases n - i
  {
    if i >= n then Copied(m, d)
    else if m.free == [] || !(0 <= m.free[0] < |m.pages|) then NoData(m, d)
    else
      var mem := m.free[0];
      var r := MapPage(Take(m, CopyContent(m, pg, i)), d, i, mem, Flags(Pte(m, pg, i)));
      if r.NoTable? then NoTables(r.m, d, mem) else CopyLoop(r.m, pg, d, i + 1, n)
  }

  /** Pages of the parent at pg in m0: mapped, on frames that are not free. */
  ghost predicate ParentAt(m0: Mem, pg: int, v: int)
  {
    0 <= v < KERNPAGE ==>
      var t := Table(m0, pg, Pdx(v));
      && 0 < t < |m0.pages| && t !in m0.free
      && Present(Pte(m0, pg, v)) && 0 < Frame(Pte(m0, pg, v)) < |m0.pages| && Frame(Pte(m0, pg, v)) !in m0.free
  }

  ghost predicate Parent(m0: Mem, pg: int, n: int)
  {
    && 0 < pg < |m0.pages| && pg !in m0.free && 0 <= n <= KERNPAGE
    && forall v {:trigger ParentAt(m0, pg, v)} :: 0 <= v < n ==> ParentAt(m0, pg, v)
  }

  /** Page v of the child is a copy of page v of the parent. */
  ghost predicate CopiedAt(m0: Mem, m: Mem, pg: int, d: int, v: int)
  {
    var w0, w := Pte(m0, pg, v), Pte(m, d, v);
    && Present(w) && Flags(w) == Flags(w0)
    && 0 <= Frame(w) < |m.pages| && 0 <= Frame(w0) < |m0.pages| && m.pages[Frame(w)] == m0.pages[Frame(w0)]
  }

  /** mappages writes the directory, a table and a page that was free. */
  lemma MapPageWrites(m: Mem, d: int, v: int, frame: int, perm: int, f: int)
    requires Space(m, d) && 0 <= v < NPAGES && 0 <= f < |m.pages|
    requires f !in m.free && f != d && f != Table(m, d, Pdx(v))
    ensures var w := MapPage(m, d, v, frame, perm); |w.m.pages| == |m.pages| && w.m.pages[f] == m.pages[f]
  {
    if Table(m, d, Pdx(v)) == 0 && m.free != [] {
      PageNumber(v, v);
      ReadyForTable(m, d, Pdx(v));
      NewTableTable(m, d, Pdx(v), Pdx(v));
    }
    hide Pdx, Ptx, Present, Frame;
  }

  /** The data pages of the address space, and a loose page, keep their bytes. */
  lemma MapPageKeepsBytes(m0: Mem, m: Mem, d: int, loose: int, v: int, perm: int, u: int)
    requires Child(m0, m, d, loose) && loose != 0 && 0 <= v < NPAGES
    ensures var w := MapPage(m, d, v, loose, perm);
      && |w.m.pages| == |m.pages| && w.m.pages[loose] == m.pages[loose]
      && (UserFrame(m, d, u) != 0 ==>
            0 < UserFrame(m, d, u) < |m.pages| && w.m.pages[UserFrame(m, d, u)] == m.pages[UserFrame(m, d, u)])
  {
    HeldNowhere(m, d, loose, Directory);
    HeldNowhere(m, d, loose, TableOf(Pdx(v)));
    MapPageWrites(m, d, v, loose, perm, loose);
    var f := UserFrame(m, d, u);
    assert f == Ref(m, d, PageOf(u));
    assert RefAt(m, d, PageOf(u)) && InjAt(m, d, PageOf(u), Directory) && InjAt(m, d, PageOf(u), TableOf(Pdx(v)));
    if f != 0 { MapPageWrites(m, d, v, loose, perm, f); }
  }

  /** What the parent maps is not affected by what the child takes. */
  lemma ParentSame(m0: Mem, m: Mem, d: int, pg: int, n: int, v: int)
    requires Child(m0, m, d, 0) && Parent(m0, pg, n) && 0 <= v < n
    ensures Pte(m, pg, v) == Pte(m0, pg, v)
    ensures var f := Frame(Pte(m0, pg, v)); Present(Pte(m0, pg, v)) && 0 < f < |m.pages| && m.pages[f] == m0.pages[f]
    ensures |m.pages[Frame(Pte(m0, pg, v))]| == NENT
  {
    assert ParentAt(m0, pg, v);
    var t := Table(m0, pg, Pdx(v));
    var f := Frame(Pte(m0, pg, v));
    assert OutAt(m0, m, pg) && OutAt(m0, m, t) && OutAt(m0, m, f) && PageAt(m, f);
  }

  ghost predicate CopyInv(m0: Mem, m: Mem, pg: int, d: int, i: int, n: int)
  {
    && Child(m0, m, d, 0) && Parent(m0, pg, n) && 0 <= i <= n
    && (forall v {:trigger CopiedAt(m0, m, pg, d, v)} :: 0 <= v < i ==> CopiedAt(m0, m, pg, d, v))
    && forall v {:trigger Pte(m, d, v)} :: i <= v < KERNPAGE ==> !Present(Pte(m, d, v))
  }

  lemma CopyTake(m0: Mem, m: Mem, pg: int, d: int, i: int, n: int)
    requires CopyInv(m0, m, pg, d, i, n) && i < n && m.free != []
    ensures 0 <= m.free[0] < |m.pages| && m.free[0] != 0 && 0 < Frame(Pte(m0, pg, i)) < |m0.pages|
    ensures var m1 := Take(m, CopyContent(m, pg, i));
      && Child(m0, m1, d, m.free[0])
      && (forall v :: Pte(m1, d, v) == Pte(m, d, v))
      && m1.pages[m.free[0]] == m0.pages[Frame(Pte(m0, pg, i))]
      && Present(Pte(m, pg, i)) && Flags(Pte(m, pg, i)) == Flags(Pte(m0, pg, i))
  {
    ParentSame(m0, m, d, pg, n, i);
    assert FreeAt(m, 0);
    TakeChild(m0, m, d, CopyContent(m, pg, i));
    forall v ensures Pte(Take(m, CopyContent(m, pg, i)), d, v) == Pte(m, d, v) {
      TakeRef(m, d, CopyContent(m, pg, i), v, Directory);
    }
  }

  lemma CopyStep(m0: Mem, m: Mem, pg: int, d: int, i: int, n: int)
    requires CopyInv(m0, m, pg, d, i, n) && i < n && m.free != []
    ensures 0 <= m.free[0] < |m.pages|
    ensures var m1 := Take(m, CopyContent(m, pg, i));
      var r := MapPage(m1, d, i, m.free[0], Flags(Pte(m, pg, i)));
      if r.NoTable? then r.m == m1 && Child(m0, m1, d, m.free[0]) && m.free[0] != 0
      else CopyInv(m0, r.m, pg, d, i + 1, n) && forall v :: KERNPAGE <= v ==> Pte(r.m, d, v) == Pte(m, d, v)
  {
    CopyTake(m0, m, pg, d, i, n);
    var w := Pte(m, pg, i);
    var mem := m.free[0];
    var m1 := Take(m, CopyContent(m, pg, i));
    FlagsTellPresent(w);
    MapPageKeeps(m0, m1, d, mem, i, mem, Flags(w));
    var r := MapPage(m1, d, i, mem, Flags(w));
    if r.Done? {
      EntryParts(mem, Flags(w));
      MapPageKeepsBytes(m0, m1, d, mem, i, Flags(w), 0);
      hide MapPage, Child, Pte, Frame, Flags, Present, Entry, CopyContent;
      forall v | 0 <= v < i + 1 ensures CopiedAt(m0, r.m, pg, d, v) {
        if v < i { CopiedStays(m0, m, pg, d, v, i, n); }
      }
    }
  }

  lemma CopiedStays(m0: Mem, m: Mem, pg: int, d: int, v: int, i: int, n: int)
    requires CopyInv(m0, m, pg, d, i, n) && 0 <= v < i < n && m.free != [] && 0 <= m.free[0] < |m.pages|
    requires MapPage(Take(m, CopyContent(m, pg, i)), d, i, m.free[0], Flags(Pte(m, pg, i))).Done?
    ensures CopiedAt(m0, MapPage(Take(m, CopyContent(m, pg, i)), d, i, m.free[0], Flags(Pte(m, pg, i))).m, pg, d, v)
  {
    CopyTake(m0, m, pg, d, i, n);
    var w := Pte(m, pg, i);
    var mem := m.free[0];
    var m1 := Take(m, CopyContent(m, pg, i));
    FlagsTellPresent(w);
    MapPageKeeps(m0, m1, d, mem, i, mem, Flags(w));
    MapPageKeepsBytes(m0, m1, d, mem, i, Flags(w), v);
    assert CopiedAt(m0, m, pg, d, v);
    assert RefAt(m, d, PageOf(v));
    hide MapPage, Child, Pte, Frame, Flags, Present;
  }

  /** How copyuvm's loop ends: with all pages copied and the kernel's mappings kept, or with every page
      accounted for, or with every page but `lost` accounted for. */
  ghost predicate CopyResult(m0: Mem, m: Mem, pg: int, d: int, n: int, r: Copy)
  {
    && r.d == d
    && match r
       case Copied(m', _) => CopyInv(m0, m', pg, d, n, n) && forall v :: KERNPAGE <= v ==> Pte(m', d, v) == Pte(m, d, v)
       case NoData(m', _) => Child(m0, m', d, 0)
       case NoTables(m', _, lost) => lost != 0 && Child(m0, m', d, lost)
  }

  lemma CopyTurn(m0: Mem, m: Mem, pg: int, d: int, i: int, n: int)
    requires CopyInv(m0, m, pg, d, i, n)
    ensures if i >= n || m.free == [] then CopyResult(m0, m, pg, d, n, CopyLoop(m, pg, d, i, n))
      else
        && 0 <= m.free[0] < |m.pages|
        && var r := MapPage(Take(m, CopyContent(m, pg, i)), d, i, m.free[0], Flags(Pte(m, pg, i)));
           if r.NoTable? then CopyResult(m0, m, pg, d, n, CopyLoop(m, pg, d, i, n))
           else
             && CopyInv(m0, r.m, pg, d, i + 1, n) && CopyLoop(m, pg, d, i, n) == CopyLoop(r.m, pg, d, i + 1, n)
             && forall q :: CopyResult(m0, r.m, pg, d, n, q) ==> CopyResult(m0, m, pg, d, n, q)
  {
    if i < n && m.free != [] {
      CopyStep(m0, m, pg, d, i, n);
      hide MapPage, Child, Pte, Flags, CopyContent, Take;
    }
  }

  lemma {:induction false} CopyLoopOutcome(m0: Mem, m: Mem, pg: int, d: int, i: int, n: int)
    requires CopyInv(m0, m, pg, d, i, n)
    ensures CopyResult(m0, m, pg, d, n, CopyLoop(m, pg, d, i, n))
    decreases n - i
  {
    hide *;
    CopyTurn(m0, m, pg, d, i, n);
    if i < n && m.free != [] {
      var r := MapPage(Take(m, CopyContent(m, pg, i)), d, i, m.free[0], Flags(Pte(m, pg, i)));
      if r.Done? { CopyLoopOutcome(m0, r.m, pg, d, i + 1, n); }
    }
  }

  // ---- deallocuvm

  /** Free user page v and clear its entry. */
  function Drop(m: Mem, d: int, v: int): Mem
  {
    var f := Frame(Pte(m, d, v));
    if 0 <= f < |m.pages| then SetPte(Kfree(m, f), d, v, 0) else m
  }

  /** One turn of deallocuvm's loop at page a: what it does there, and where it goes on. */
  function DeallocAt(m: Mem, d: int, a: int): Mem
  {
    if Table(m, d, Pdx(a)) != 0 && Present(Pte(m, d, a)) then Drop(m, d, a) else m
  }

  function DeallocNext(m: Mem, d: int, a: int): (r: int)
    ensures a < r
  {
    if Table(m, d, Pdx(a)) == 0 then a + NENT else a + 1
  }

  /** The loop, from page a to page e. */
  function Dealloc(m: Mem, d: int, a: int, e: int): Mem
    decreases e - a
  {
    if a >= e then m else Dealloc(DeallocAt(m, d, a), d, DeallocNext(m, d, a), e)
  }

  /** The page is unmapped and freed, whichever comes first. */
  lemma DropCommutes(m: Mem, d: int, v: int)
    requires HasTable(m, d, v) && v < KERNPAGE && Present(Pte(m, d, v))
    ensures Frame(Pte(m, d, v)) == UserFrame(m, d, v)
    ensures m.lo <= Frame(Pte(m, d, v)) < |m.pages|
    ensures Drop(m, d, v) == Kfree(SetPte(m, d, v, 0), Frame(Pte(m, d, v)))
  {
    var f := Frame(Pte(m, d, v));
    assert Ref(m, d, PageOf(v)) == f;
    var t := Table(m, d, Pdx(v));
    assert RefAt(m, d, PageOf(v)) && InjAt(m, d, PageOf(v), Directory) && InjAt(m, d, PageOf(v), TableOf(Pdx(v)));
    assert Table(Kfree(m, f), d, Pdx(v)) == t;
    hide Pdx, Ptx, Present, Frame, Table;
    assert Kfree(m, f).pages[t] == m.pages[t];
    assert Drop(m, d, v).pages == Kfree(SetPte(m, d, v, 0), f).pages;
  }

  lemma DropPte(m: Mem, d: int, v: int, u: int, q: int)
    requires HasTable(m, d, v) && v < KERNPAGE && Present(Pte(m, d, v))
    ensures Pte(Drop(m, d, v), d, u) == if u == v then 0 else Pte(m, d, u)
    ensures Table(Drop(m, d, v), d, q) == Table(m, d, q)
  {
    DropCommutes(m, d, v);
    var f := Frame(Pte(m, d, v));
    var m1 := SetPte(m, d, v, 0);
    SetPteSpace(m, d, v, 0);
    SetPteIs(m, d, v, 0, u);
    SetPteTable(m, d, v, 0, q);
    SetPteTable(m, d, v, 0, Pdx(u));
    assert Ref(m, d, PageOf(v)) == f;
    assert InjAt(m, d, PageOf(v), Directory) && InjAt(m, d, PageOf(v), TableOf(Pdx(u))) && RefAt(m, d, PageOf(v));
    KfreeView(m1, d, f, u, q);
  }

  /** Freeing a page that the directory and tables are not in changes no entry. */
  lemma KfreeView(m: Mem, d: int, f: int, u: int, q: int)
    requires 0 < f < |m.pages| && f != d && f != Table(m, d, Pdx(u))
    ensures Pte(Kfree(m, f), d, u) == Pte(m, d, u) && Table(Kfree(m, f), d, q) == Table(m, d, q)
    ensures Word(Kfree(m, f), d, q) == Word(m, d, q)
  {
    hide Pdx, Ptx, Present, Frame;
  }

  lemma KfreeRef(m: Mem, d: int, f: int, at: Place)
    requires 0 < f < |m.pages| && !Held(m, d, f)
    ensures Ref(Kfree(m, f), d, at) == Ref(m, d, at) && Mapped(Kfree(m, f), d, at) == Mapped(m, d, at)
  {
    HeldNowhere(m, d, f, Directory);
    var u := if at.PageOf? then at.v else 0;
    HeldNowhere(m, d, f, TableOf(Pdx(u)));
    KfreeView(m, d, f, u, if at.TableOf? then at.p else 0);
    hide Pte, Table, Word, Kfree;
  }

  lemma KfreeHeld(m: Mem, d: int, f: int, g: int)
    requires 0 < f < |m.pages| && !Held(m, d, f)
    ensures Held(Kfree(m, f), d, g) <==> Held(m, d, g)
  {
    var m' := Kfree(m, f);
    hide Kfree, Ref;
    if Held(m, d, g) {
      var at :| Ref(m, d, at) == g && g != 0;
      KfreeRef(m, d, f, at);
      assert Ref(m', d, at) == g;
    }
    if Held(m', d, g) {
      var at :| Ref(m', d, at) == g && g != 0;
      KfreeRef(m, d, f, at);
      assert Ref(m, d, at) == g;
    }
  }

  /** Freeing the loose page leaves nothing loose. */
  lemma KfreeChild(m0: Mem, m: Mem, d: int, f: int)
    requires Child(m0, m, d, f) && f != 0
    ensures Child(m0, Kfree(m, f), d, 0)
  {
    var m' := Kfree(m, f);
    KfreeShape(m, f);
    assert AcctAt(m0, m, d, f, f);
    hide Ref, Mapped, Shape, Held;
    forall at ensures RefAt(m', d, at) {
      assert RefAt(m, d, at);
      KfreeRef(m, d, f, at);
      HeldIs(m, d, at);
      LowNotZero(m);
    }
    forall at, bt ensures InjAt(m', d, at, bt) {
      assert InjAt(m, d, at, bt);
      KfreeRef(m, d, f, at);
      KfreeRef(m, d, f, bt);
    }
    forall g ensures AcctAt(m0, m', d, 0, g) { assert AcctAt(m0, m, d, f, g); KfreeHeld(m, d, f, g); }
    forall g ensures OutAt(m0, m', g) { assert OutAt(m0, m, g); }
  }

  lemma LowNotZero(m: Mem)
    requires Shape(m)
    ensures 0 < m.lo
  {
  }

  lemma UnsetHeld(m: Mem, d: int, v: int, f: int)
    requires HasTable(m, d, v) && v < KERNPAGE && Present(Pte(m, d, v))
    ensures Held(m, d, f) <==> Held(SetPte(m, d, v, 0), d, f) || f == Frame(Pte(m, d, v))
    ensures !Held(SetPte(m, d, v, 0), d, Frame(Pte(m, d, v)))
  {
    var m' := SetPte(m, d, v, 0);
    var g := Frame(Pte(m, d, v));
    assert Ref(m, d, PageOf(v)) == g && RefAt(m, d, PageOf(v)) && !Present(0);
    LowNotZero(m);
    hide SetPte, Ref, Present, Frame, Pte;
    if Held(m, d, f) {
      var at :| Ref(m, d, at) == f && f != 0;
      SetPteRef(m, d, v, 0, at);
      if at != PageOf(v) { assert Ref(m', d, at) == f; }
    }
    if Held(m', d, f) {
      var at :| Ref(m', d, at) == f && f != 0;
      SetPteRef(m, d, v, 0, at);
      assert Ref(m, d, at) == f;
    }
    forall at ensures Ref(m', d, at) != g {
      SetPteRef(m, d, v, 0, at);
      assert InjAt(m, d, at, PageOf(v));
    }
  }

  lemma DropKeeps(m0: Mem, m: Mem, d: int, v: int)
    requires Child(m0, m, d, 0) && HasTable(m, d, v) && v < KERNPAGE && Present(Pte(m, d, v))
    ensures Child(m0, Drop(m, d, v), d, 0)
  {
    var f := Frame(Pte(m, d, v));
    var m1 := SetPte(m, d, v, 0);
    var t := Table(m, d, Pdx(v));
    DropCommutes(m, d, v);
    LowNotZero(m);
    SetPteSpace(m, d, v, 0);
    UnsetHeld(m, d, v, f);
    HeldNotFree(m, d, f);
    HeldIs(m, d, TableOf(Pdx(v)));
    assert AcctAt(m0, m, d, 0, t);
    hide Held, Space, Present, Frame, Pdx, Ptx, Table, Pte;
    assert Child(m0, m1, d, f) by {
      forall g ensures AcctAt(m0, m1, d, f, g) { assert AcctAt(m0, m, d, 0, g); UnsetHeld(m, d, v, g); }
      forall g ensures OutAt(m0, m1, g) { assert OutAt(m0, m, g); }
    }
    KfreeChild(m0, m1, d, f);
  }

  /** m' has the tables of m, and its entries but for some of pages a to e that are cleared. */
  ghost predicate Shrunk(m: Mem, m': Mem, d: int, a: int, e: int)
  {
    && (forall q :: Table(m', d, q) == Table(m, d, q))
    && (forall v :: Pte(m', d, v) == Pte(m, d, v) || (a <= v < e && Pte(m', d, v) == 0))
  }

  lemma ShrunkTwice(m: Mem, m1: Mem, m2: Mem, d: int, a: int, b: int, e: int)
    requires Shrunk(m, m1, d, a, a + 1) && Shrunk(m1, m2, d, b, e) && a < b && a < e
    ensures Shrunk(m, m2, d, a, e)
  {
    hide Pte, Table;
  }

  lemma DeallocTurn(m0: Mem, m: Mem, d: int, a: int)
    requires Child(m0, m, d, 0) && 0 <= a < KERNPAGE
    ensures Child(m0, DeallocAt(m, d, a), d, 0) && Shrunk(m, DeallocAt(m, d, a), d, a, a + 1)
    ensures Table(m, d, Pdx(a)) != 0 ==> !Present(Pte(DeallocAt(m, d, a), d, a))
  {
    if Table(m, d, Pdx(a)) != 0 && Present(Pte(m, d, a)) {
      DropKeeps(m0, m, d, a);
      var m1 := Drop(m, d, a);
      forall u, q ensures Pte(m1, d, u) == (if u == a then 0 else Pte(m, d, u)) && Table(m1, d, q) == Table(m, d, q) {
        DropPte(m, d, a, u, q);
      }
      assert !Present(0);
    }
    hide Drop, Child, Pte, Table, Present, Pdx;
  }

  /** deallocuvm unmaps only in its range, keeps tables and kernel mappings, and accounts for every page. */
  lemma {:induction false} DeallocKeeps(m0: Mem, m: Mem, d: int, a: int, e: int)
    requires Child(m0, m, d, 0) && 0 <= a && e <= KERNPAGE
    ensures Child(m0, Dealloc(m, d, a, e), d, 0) && Shrunk(m, Dealloc(m, d, a, e), d, a, e)
    decreases e - a
  {
    hide DeallocAt, DeallocNext, Child, Pte, Table;
    if a < e {
      DeallocTurn(m0, m, d, a);
      DeallocKeeps(m0, DeallocAt(m, d, a), d, DeallocNext(m, d, a), e);
      ShrunkTwice(m, DeallocAt(m, d, a), Dealloc(m, d, a, e), d, a, DeallocNext(m, d, a), e);
    }
  }

  // ---- Which pages deallocuvm reaches

  /** The loop is at the start of a table, or inside one that is there: it will pass every page. */
  predicate InStep(m: Mem, d: int, a: int)
  {
    Ptx(a) == 0 || Table(m, d, Pdx(a)) != 0
  }

  lemma InStepNext(m: Mem, d: int, a: int)
    requires 0 <= a
    ensures var b := DeallocNext(m, d, a);
      && (InStep(m, d, a) ==> InStep(m, d, b))
      && (Table(m, d, Pdx(a)) == 0 ==> Pdx(b) == Pdx(a) + 1 && Ptx(b) == Ptx(a))
      && (InStep(m, d, a) && Table(m, d, Pdx(a)) == 0 ==> forall v :: a <= v < b ==> Pdx(v) == Pdx(a))
  {
    hide Table;
  }

  lemma {:induction false} DeallocClears(m0: Mem, m: Mem, d: int, a: int, e: int, v: int)
    requires Child(m0, m, d, 0) && 0 <= a <= v < e <= KERNPAGE && InStep(m, d, a)
    ensures !Present(Pte(Dealloc(m, d, a, e), d, v))
    decreases e - a
  {
    var m1, b := DeallocAt(m, d, a), DeallocNext(m, d, a);
    DeallocTurn(m0, m, d, a);
    InStepNext(m, d, a);
    assert Table(m1, d, Pdx(b)) == Table(m, d, Pdx(b));
    if b <= v {
      DeallocClears(m0, m1, d, b, e, v);
    } else {
      DeallocKeeps(m0, m1, d, b, e);
      assert Pte(Dealloc(m1, d, b, e), d, v) == Pte(m1, d, v) || Pte(Dealloc(m1, d, b, e), d, v) == 0;
      assert !Present(0);
    }
  }

  /** Where the loop lands on a table that is there. */
  function Landing(m: Mem, d: int, a: int, e: int): int
    decreases e - a
  {
    if a >= e || Table(m, d, Pdx(a)) != 0 then a else Landing(m, d, a + NENT, e)
  }

  lemma {:induction false} LandingIs(m: Mem, d: int, a: int, e: int, v: int)
    requires 0 <= a
    ensures var b := Landing(m, d, a, e);
      && a <= b && Ptx(b) == Ptx(a) && Dealloc(m, d, a, e) == Dealloc(m, d, b, e)
      && (b < e ==> Table(m, d, Pdx(b)) != 0)
      && (a <= v < b - Ptx(a) ==> Table(m, d, Pdx(v)) == 0)
    decreases e - a
  {
    if a < e && Table(m, d, Pdx(a)) == 0 {
      LandingIs(m, d, a + NENT, e, v);
      InStepNext(m, d, a);
      hide Table;
    }
  }

  ghost predicate Cleared(m: Mem, d: int, a: int, e: int)
  {
    forall v :: a <= v < e ==> !Present(Pte(m, d, v))
  }

  /** From a page whose table is missing, deallocuvm jumps 1024 pages whatever the place in the table.  So it
      frees all pages of its range exactly when it starts in step, or nothing is mapped in the part of the
      table it lands in that it jumps over. */
  lemma DeallocClearsIff(m0: Mem, m: Mem, d: int, a: int, e: int)
    requires Child(m0, m, d, 0) && 0 <= a <= e <= KERNPAGE
    ensures Cleared(Dealloc(m, d, a, e), d, a, e) <==>
      InStep(m, d, a) ||
      var b := Landing(m, d, a, e);
      forall v :: b - Ptx(a) <= v < b && a <= v < e ==> !Present(Pte(m, d, v))
  {
    var b := Landing(m, d, a, e);
    var m' := Dealloc(m, d, a, e);
    assert !Present(0);
    if InStep(m, d, a) {
      forall v | a <= v < e ensures !Present(Pte(m', d, v)) { DeallocClears(m0, m, d, a, e, v); }
    } else {
      LandingIs(m, d, a, e, a);
      DeallocKeeps(m0, m, d, b, e);
      assert Shrunk(m, m', d, b, e);
      forall v | a <= v < e
        ensures Present(Pte(m', d, v)) <==> b - Ptx(a) <= v < b && Present(Pte(m, d, v))
      {
        LandingIs(m, d, a, e, v);
        if b <= v { DeallocClears(m0, m, d, b, e, v); }
      }
    }
  }

  /** User memory without gaps is always freed completely. */
  lemma ContiguousClears(m0: Mem, m: Mem, d: int, n: int, a: int, e: int)
    requires Child(m0, m, d, 0) && 0 <= a <= e <= KERNPAGE
    requires forall v :: 0 <= v < KERNPAGE ==> (Present(Pte(m, d, v)) <==> v < n)
    ensures Cleared(Dealloc(m, d, a, e), d, a, e)
  {
    DeallocClearsIff(m0, m, d, a, e);
    assert !Present(0);
    assert !InStep(m, d, a) && a < KERNPAGE ==> Pte(m, d, a) == 0;
  }

  // ---- freevm

  /** Its loop over the directory, which keeps its entries. */
  function FreeTables(m: Mem, d: int, p: int): Mem
    decreases NENT - p
  {
    if p >= NENT then m
    else
      var f := Table(m, d, p);
      if f != 0 && 0 <= f < |m.pages| then FreeTables(Kfree(m, f), d, p + 1) else FreeTables(m, d, p + 1)
  }

  function Freevm(m: Mem, d: int): Mem
  {
    var m' := FreeTables(Dealloc(m, d, 0, KERNPAGE), d, 0);
    if 0 <= d < |m'.pages| then Kfree(m', d) else m'
  }

  /** Frame f is that of a table from p on. */
  ghost predicate TableFrom(m: Mem, d: int, p: int, f: int)
  {
    exists q :: p <= q < NENT && Table(m, d, q) == f && f != 0
  }

  ghost predicate TearAt(m0: Mem, m: Mem, d: int, p: int, f: int)
  {
    f in m0.free <==> f in m.free || f == d || TableFrom(m, d, p, f)
  }

  /** freevm has freed the user pages and the tables before p. */
  ghost predicate Tearing(m0: Mem, m: Mem, d: int, p: int)
  {
    && Shape(m) && m.lo == m0.lo && |m.pages| == |m0.pages|
    && m.lo <= d < |m.pages| && d !in m.free
    && (forall q {:trigger TableSound(m, d, p, q)} :: TableSound(m, d, p, q))
    && (forall q, r :: p <= q < r < NENT && Table(m, d, q) != 0 ==> Table(m, d, q) != Table(m, d, r))
    && (forall f {:trigger TearAt(m0, m, d, p, f)} :: TearAt(m0, m, d, p, f))
    && (forall f {:trigger OutAt(m0, m, f)} :: OutAt(m0, m, f))
  }

  predicate TableSound(m: Mem, d: int, p: int, q: int)
  {
    var f := Table(m, d, q);
    p <= q < NENT && Present(Word(m, d, q)) ==> m.lo <= f < |m.pages| && f !in m.free && f != d
  }

  /** Once no user page is mapped, the address space is its directory and its tables. */
  lemma TearStart(m0: Mem, m: Mem, d: int)
    requires Child(m0, m, d, 0) && Cleared(m, d, 0, KERNPAGE)
    ensures Tearing(m0, m, d, 0)
  {
    assert RefAt(m, d, Directory) && PageAt(m, d);
    forall q ensures TableSound(m, d, 0, q) { assert RefAt(m, d, TableOf(q)) && InjAt(m, d, TableOf(q), Directory); }
    forall q, r | 0 <= q < r < NENT && Table(m, d, q) != 0 ensures Table(m, d, q) != Table(m, d, r) {
      assert InjAt(m, d, TableOf(q), TableOf(r));
    }
    LowNotZero(m);
    hide Space, Pte;
    forall f ensures TearAt(m0, m, d, 0, f) {
      assert AcctAt(m0, m, d, 0, f);
      HeldIsTable(m, d, f);
    }
  }

  lemma HeldIsTable(m: Mem, d: int, f: int)
    requires Cleared(m, d, 0, KERNPAGE) && d != 0 && (0 <= d < |m.pages| ==> |m.pages[d]| == NENT)
    ensures Held(m, d, f) <==> f == d || TableFrom(m, d, 0, f)
  {
    assert !Present(0);
    assert forall v :: v < KERNPAGE ==> !Present(Pte(m, d, v));
    assert Ref(m, d, Directory) == d;
    if Held(m, d, f) {
      var at :| Ref(m, d, at) == f && f != 0;
      if at.TableOf? { TableInside(m, d, at.p); }
    }
    if TableFrom(m, d, 0, f) {
      var q :| 0 <= q < NENT && Table(m, d, q) == f && f != 0;
      assert Ref(m, d, TableOf(q)) == f;
    }
  }

  lemma TableInside(m: Mem, d: int, p: int)
    requires Table(m, d, p) != 0 && (0 <= d < |m.pages| ==> |m.pages[d]| == NENT)
    ensures 0 <= p < NENT
  {
    assert !Present(0);
  }

  lemma TearStep(m0: Mem, m: Mem, d: int, p: int)
    requires Tearing(m0, m, d, p) && 0 <= p < NENT
    ensures var f := Table(m, d, p);
      if f == 0 then Tearing(m0, m, d, p + 1)
      else 0 < f < |m.pages| && m.lo <= f && f !in m.free && Tearing(m0, Kfree(m, f), d, p + 1)
  {
    var f := Table(m, d, p);
    assert TableSound(m, d, p, p);
    LowNotZero(m);
    var m' := if f == 0 then m else Kfree(m, f);
    if f != 0 { KfreeShape(m, f); }
    assert forall q :: Table(m', d, q) == Table(m, d, q) && Word(m', d, q) == Word(m, d, q);
    assert TearAt(m0, m, d, p, f);
    assert f != 0 ==> TableFrom(m, d, p, f);
    hide Shape, JunkPage;
    var p' := p + 1;
    forall q ensures TableSound(m', d, p', q) {
      assert TableSound(m, d, p, q);
      assert p < q < NENT && Table(m, d, q) != 0 && f != 0 ==> Table(m, d, p) != Table(m, d, q);
    }
    forall g ensures TearAt(m0, m', d, p', g) {
      assert TearAt(m0, m, d, p, g);
      TableFromStep(m, m', d, p, g);
    }
    forall g ensures OutAt(m0, m', g) { assert OutAt(m0, m, g); }
  }

  lemma TableFromStep(m: Mem, m': Mem, d: int, p: int, g: int)
    requires 0 <= p < NENT && forall q :: Table(m', d, q) == Table(m, d, q)
    ensures TableFrom(m, d, p, g) <==> TableFrom(m', d, p + 1, g) || (g == Table(m, d, p) && g != 0)
  {
    hide Table;
    if TableFrom(m, d, p, g) {
      var q :| p <= q < NENT && Table(m, d, q) == g && g != 0;
      assert Table(m', d, q) == g;
    }
    if TableFrom(m', d, p + 1, g) {
      var q :| p + 1 <= q < NENT && Table(m', d, q) == g && g != 0;
      assert Table(m, d, q) == g;
    }
  }

  lemma {:induction false} TearAll(m0: Mem, m: Mem, d: int, p: int)
    requires Tearing(m0, m, d, p) && 0 <= p <= NENT
    ensures Tearing(m0, FreeTables(m, d, p), d, NENT)
    decreases NENT - p
  {
    if p < NENT {
      hide Tearing, Table;
      TearStep(m0, m, d, p);
      var f := Table(m, d, p);
      TearAll(m0, if f == 0 then m else Kfree(m, f), d, p + 1);
    }
  }

  /** m has the free list of m0, in some order, each frame once; all pages that were in use are as they were. */
  ghost predicate Restored(m0: Mem, m: Mem)
  {
    && Shape(m) && m.lo == m0.lo && |m.pages| == |m0.pages|
    && (forall f :: f in m.free <==> f in m0.free)
    && (forall f {:trigger OutAt(m0, m, f)} :: OutAt(m0, m, f))
  }

  /** freevm gives back exactly the pages the address space was made of, each once. */
  lemma FreevmRestores(m0: Mem, m: Mem, d: int)
    requires Child(m0, m, d, 0)
    ensures Restored(m0, Freevm(m, d))
  {
    var m1 := Dealloc(m, d, 0, KERNPAGE);
    DeallocKeeps(m0, m, d, 0, KERNPAGE);
    DeallocClearsIff(m0, m, d, 0, KERNPAGE);
    TearStart(m0, m1, d);
    TearAll(m0, m1, d, 0);
    var m2 := FreeTables(m1, d, 0);
    hide Dealloc, FreeTables, Child, Cleared;
    KfreeShape(m2, d);
    LowNotZero(m2);
    var m3 := Kfree(m2, d);
    assert TearAt(m0, m2, d, NENT, d);
    forall f ensures f in m3.free <==> f in m0.free { assert TearAt(m0, m2, d, NENT, f); }
    forall f ensures OutAt(m0, m3, f) { assert OutAt(m0, m2, f); }
  }

  // ---- copyuvm as a whole

  datatype CopyOutcome = CopyOk(m: Mem, d: int) | CopyFailed(m: Mem)

  function CopyUvm(m: Mem, pg: int, n: int, kmap: seq<Kmap>): CopyOutcome
  {
    var s := SetupKvm(m, kmap);
    if s.SetupFailed? then CopyFailed(s.m)
    else
      var r := CopyLoop(s.m, pg, s.d, 0, n);
      if r.Copied? then CopyOk(r.m, r.d) else CopyFailed(Freevm(r.m, r.d))
  }

  /** m0 without the page that was lost. */
  function Without(m0: Mem, m: Mem, lost: int): Mem
  {
    if 0 <= lost < |m0.pages| && lost < |m.pages|
    then m0.(free := Remove(m0.free, lost), pages := m0.pages[lost := m.pages[lost]]) else m0
  }

  function Remove(s: seq<int>, x: int): seq<int>
  {
    if s == [] then [] else if s[0] == x then Remove(s[1..], x) else [s[0]] + Remove(s[1..], x)
  }

  lemma {:induction false} RemoveIs(s: seq<int>, x: int, y: int)
    ensures y in Remove(s, x) <==> y in s && y != x
  {
    if s != [] { RemoveIs(s[1..], x, y); }
  }

  lemma ForgetLoose(m0: Mem, m: Mem, d: int, lost: int)
    requires Child(m0, m, d, lost) && lost != 0
    ensures Child(Without(m0, m, lost), m, d, 0)
  {
    var m1 := Without(m0, m, lost);
    LowNotZero(m);
    assert m1.free == Remove(m0.free, lost);
    hide Space, Held;
    forall f ensures AcctAt(m1, m, d, 0, f) { assert AcctAt(m0, m, d, lost, f); RemoveIs(m0.free, lost, f); }
    forall f ensures OutAt(m1, m, f) { assert OutAt(m0, m, f); RemoveIs(m0.free, lost, f); }
  }

  /** The child's user pages are fresh: all were free before. */
  lemma ChildPagesFresh(m0: Mem, m: Mem, d: int, v: int)
    requires Child(m0, m, d, 0) && UserFrame(m, d, v) != 0
    ensures UserFrame(m, d, v) in m0.free
    ensures forall u :: u != v ==> UserFrame(m, d, u) != UserFrame(m, d, v)
  {
    assert Ref(m, d, PageOf(v)) == UserFrame(m, d, v);
    HeldIs(m, d, PageOf(v));
    assert AcctAt(m0, m, d, 0, UserFrame(m, d, v));
    forall u | u != v ensures UserFrame(m, d, u) != UserFrame(m, d, v) {
      assert InjAt(m, d, PageOf(v), PageOf(u)) && Ref(m, d, PageOf(u)) == UserFrame(m, d, u);
    }
  }

  /** copyuvm.  On success the child has the parent's bytes and flags at every page below n, no other user
      page, and the kernel's mappings; freevm would then restore the free pages exactly.  On failure the free
      pages are restored exactly if a data page could not be had, are one short if a page table for it could
      not, and are all gone if setupkvm failed. */
  lemma CopyUvmOutcome(m: Mem, pg: int, n: int, kmap: seq<Kmap>)
    requires Shape(m) && ValidKmap(kmap) && Parent(m, pg, n)
    ensures match CopyUvm(m, pg, n, kmap)
      case CopyOk(m', d) =>
        && Child(m, m', d, 0) && Restored(m, Freevm(m', d))
        && (forall v :: 0 <= v < n ==> CopiedAt(m, m', pg, d, v))
        && (forall v :: n <= v < KERNPAGE ==> !Present(Pte(m', d, v)))
        && (forall x, u :: 0 <= x < |kmap| && Covers(kmap[x], u) ==> Maps(kmap[x], u, Pte(m', d, u)))
      case CopyFailed(m') =>
        var s := SetupKvm(m, kmap);
        if s.SetupFailed? then m'.free == []
        else
          match CopyLoop(s.m, pg, s.d, 0, n)
          case Copied(_, _) => false
          case NoData(_, _) => Restored(m, m')
          case NoTables(m1, _, lost) => lost in m.free && |m1.pages| == |m.pages| && Restored(Without(m, m1, lost), m')
  {
    SetupKvmOutcome(m, kmap);
    var s := SetupKvm(m, kmap);
    if s.SetupDone? {
      assert CopyInv(m, s.m, pg, s.d, 0, n) by { assert !Present(0); UserEmpty(kmap); }
      CopyLoopOutcome(m, s.m, pg, s.d, 0, n);
      hide CopyLoop, SetupKvm, Pte, Freevm, Child;
      var r := CopyLoop(s.m, pg, s.d, 0, n);
      match r {
        case Copied(m', d) => FreevmRestores(m, m', d);
        case NoData(m', d) => FreevmRestores(m, m', d);
        case NoTables(m', d, lost) =>
          LostWasFree(m, m', d, lost);
          ForgetLoose(m, m', d, lost);
          FreevmRestores(Without(m, m', lost), m', d);
      }
    }
  }

  lemma LostWasFree(m0: Mem, m: Mem, d: int, lost: int)
    requires Child(m0, m, d, lost) && lost != 0
    ensures lost in m0.free && |m.pages| == |m0.pages|
  {
    assert AcctAt(m0, m, d, lost, lost);
  }

  lemma UserEmpty(kmap: seq<Kmap>)
    requires ValidKmap(kmap)
    ensures forall u, x :: u < KERNPAGE && 0 <= x < |kmap| ==> !Covers(kmap[x], u)
  {
  }

  // ---- allocuvm

  /** `lost` is the page that allocuvm took and could not map, or 0. */
  datatype Grow = Grew(m: Mem, lost: int) | OutOfPages(m: Mem, lost: int)

  /** Its loop from page a to page e; it does not look at the result of mappages. */
  function AllocLoop(m: Mem, d: int, a: int, e: int, lost: int): Grow
    decreases e - a
  {
    if a >= e then Grew(m, lost)
    else if m.free == [] || !(0 <= m.free[0] < |m.pages|) then OutOfPages(m, lost)
    else
      var r := MapPage(Take(m, ZeroPage()), d, a, m.free[0], PTE_W + PTE_U);
      AllocLoop(r.m, d, a + 1, e, if r.Done? then lost else m.free[0])
  }

  /** Page v is a zeroed page that user code may write. */
  ghost predicate NewPageAt(m: Mem, d: int, v: int)
  {
    var w := Pte(m, d, v);
    Flags(w) == PTE_P + PTE_W + PTE_U && 0 <= Frame(w) < |m.pages| && m.pages[Frame(w)] == ZeroPage()
  }

  /** The loop is at page b: pages a to b are new, those to e are not mapped, and other entries are as in m0. */
  ghost predicate GrowInv(m0: Mem, m: Mem, d: int, a: int, b: int, e: int)
  {
    && Child(m0, m, d, 0) && 0 <= a <= b <= e <= KERNPAGE
    && (forall v {:trigger NewPageAt(m, d, v)} :: a <= v < b ==> NewPageAt(m, d, v))
    && forall v {:trigger Pte(m, d, v)} :: b <= v < e ==> !Present(Pte(m, d, v))
  }

  lemma GrowTake(m0: Mem, m: Mem, d: int, a: int, b: int, e: int)
    requires GrowInv(m0, m, d, a, b, e) && b < e && m.free != []
    ensures 0 <= m.free[0] < |m.pages| && m.free[0] != 0
    ensures var m1 := Take(m, ZeroPage());
      Child(m0, m1, d, m.free[0]) && m1.pages[m.free[0]] == ZeroPage() && forall v :: Pte(m1, d, v) == Pte(m, d, v)
  {
    assert FreeAt(m, 0);
    TakeChild(m0, m, d, ZeroPage());
    forall v ensures Pte(Take(m, ZeroPage()), d, v) == Pte(m, d, v) { TakeRef(m, d, ZeroPage(), v, Directory); }
  }

  lemma GrowStep(m0: Mem, m: Mem, d: int, a: int, b: int, e: int)
    requires GrowInv(m0, m, d, a, b, e) && b < e && m.free != []
    ensures 0 <= m.free[0] < |m.pages| && m.free[0] != 0
    ensures var r := MapPage(Take(m, ZeroPage()), d, b, m.free[0], PTE_W + PTE_U);
      && (forall v :: v != b ==> Pte(r.m, d, v) == Pte(m, d, v))
      && if r.Done? then GrowInv(m0, r.m, d, a, b + 1, e)
         else Child(m0, r.m, d, m.free[0]) && r.m.free == [] && !Present(Pte(r.m, d, b))
  {
    GrowTake(m0, m, d, a, b, e);
    var mem := m.free[0];
    var m1 := Take(m, ZeroPage());
    MapPageKeeps(m0, m1, d, mem, b, mem, PTE_W + PTE_U);
    var r := MapPage(m1, d, b, mem, PTE_W + PTE_U);
    if r.Done? {
      EntryParts(mem, PTE_P + PTE_W + PTE_U);
      MapPageKeepsBytes(m0, m1, d, mem, b, PTE_W + PTE_U, 0);
      hide MapPage, Child, Pte, Frame, Flags, Present, Entry, Take;
      forall v | a <= v < b + 1 ensures NewPageAt(r.m, d, v) {
        if v < b { NewPageStays(m0, m, d, a, b, e, v); }
      }
    }
  }

  lemma NewPageStays(m0: Mem, m: Mem, d: int, a: int, b: int, e: int, v: int)
    requires GrowInv(m0, m, d, a, b, e) && a <= v < b < e && m.free != [] && 0 <= m.free[0] < |m.pages|
    requires MapPage(Take(m, ZeroPage()), d, b, m.free[0], PTE_W + PTE_U).Done?
    ensures NewPageAt(MapPage(Take(m, ZeroPage()), d, b, m.free[0], PTE_W + PTE_U).m, d, v)
  {
    GrowTake(m0, m, d, a, b, e);
    var mem := m.free[0];
    var m1 := Take(m, ZeroPage());
    MapPageKeeps(m0, m1, d, mem, b, mem, PTE_W + PTE_U);
    MapPageKeepsBytes(m0, m1, d, mem, b, PTE_W + PTE_U, v);
    assert NewPageAt(m, d, v) && RefAt(m, d, PageOf(v));
    FlagsTellPresent(Pte(m, d, v));
    hide MapPage, Child, Pte, Frame, Flags, Present;
  }

  /** How allocuvm's loop ends.  It can return success with its last page missing. */
  ghost predicate GrowResult(m0: Mem, d: int, a: int, e: int, g: Grow)
  {
    && Child(m0, g.m, d, g.lost)
    && match g
       case Grew(m', lost) =>
         if lost == 0 then GrowInv(m0, m', d, a, e, e)
         else a < e && m'.free == [] && !Present(Pte(m', d, e - 1))
       case OutOfPages(m', _) => m'.free == []
  }

  /** allocuvm.  Success with a page lost means that the page table of the very last page could not be had. */
  lemma {:induction false} AllocLoopOutcome(m0: Mem, m: Mem, d: int, a: int, b: int, e: int)
    requires GrowInv(m0, m, d, a, b, e)
    ensures GrowResult(m0, d, a, e, AllocLoop(m, d, b, e, 0))
    ensures var g := AllocLoop(m, d, b, e, 0); forall v :: v < b || e <= v ==> Pte(g.m, d, v) == Pte(m, d, v)
    decreases e - b
  {
    if b < e && m.free != [] {
      GrowStep(m0, m, d, a, b, e);
      hide MapPage, Child, Pte, Frame, Flags, Present, Take;
      var r := MapPage(Take(m, ZeroPage()), d, b, m.free[0], PTE_W + PTE_U);
      if r.Done? { AllocLoopOutcome(m0, r.m, d, a, b + 1, e); }
    }
  }

  // ---- Two small machines

  /** n free pages, numbered from 1. */
  function Boot(n: nat): Mem
  {
    var free := seq(n, k => k + 1);
    Mem(1, seq(n + 1, f => JunkPage(Link(free, f))), free)
  }

  lemma BootShape(n: nat)
    ensures Shape(Boot(n))
  {
    var m := Boot(n);
    forall f ensures PageAt(m, f) { }
    forall k ensures FreeAt(m, k) { }
  }

  /** An address space with page 1024 mapped and no first table. */
  lemma OneHighPage() returns (m0: Mem, m: Mem, d: int)
    ensures Child(m0, m, d, 0) && Present(Pte(m, d, NENT)) && Table(m, d, 0) == 0
  {
    m0 := Boot(3);
    d := 1;
    BootShape(3);
    EmptySpace(m0);
    var m1 := Take(m0, ZeroPage());
    assert !Present(0);
    assert GrowInv(m0, m1, d, NENT, NENT, NENT + 1);
    GrowStep(m0, m1, d, NENT, NENT, NENT + 1);
    var r := MapPage(Take(m1, ZeroPage()), d, NENT, m1.free[0], PTE_W + PTE_U);
    assert r.Done?;
    m := r.m;
    assert NewPageAt(m, d, NENT);
    FlagsTellPresent(Pte(m, d, NENT));
    GrowTake(m0, m1, d, NENT, NENT, NENT + 1);
    assert Table(m1, d, 0) == 0 && Table(Take(m1, ZeroPage()), d, 0) == 0;
    MapPageTable(m0, Take(m1, ZeroPage()), d, m1.free[0], NENT, m1.free[0], PTE_W + PTE_U, 0);
  }

  /** deallocuvm from page 1 with the first table missing does not free page 1024. */
  lemma SkipExample() returns (m0: Mem, m: Mem, d: int)
    ensures Child(m0, m, d, 0) && Present(Pte(m, d, NENT))
    ensures Present(Pte(Dealloc(m, d, 1, 2 * NENT), d, NENT))
  {
    m0, m, d := OneHighPage();
    LandingIs(m, d, 1, 2 * NENT, NENT);
    assert Landing(m, d, 1, 2 * NENT) == NENT + 1;
    DeallocKeeps(m0, m, d, NENT + 1, 2 * NENT);
    assert Shrunk(m, Dealloc(m, d, 1, 2 * NENT), d, NENT + 1, 2 * NENT);
  }

  /** With two free pages, one for the directory, allocuvm of one page succeeds and maps nothing. */
  lemma LastPageExample() returns (m0: Mem, m: Mem, d: int)
    ensures Child(m0, m, d, 0) && AllocLoop(m, d, 0, 1, 0).Grew?
    ensures !Present(Pte(AllocLoop(m, d, 0, 1, 0).m, d, 0))
  {
    m0 := Boot(2);
    d := 1;
    BootShape(2);
    EmptySpace(m0);
    m := Take(m0, ZeroPage());
    assert !Present(0);
    assert GrowInv(m0, m, d, 0, 0, 1);
    GrowStep(m0, m, d, 0, 0, 1);
    assert Table(Take(m, ZeroPage()), d, 0) == 0;
    var r := MapPage(Take(m, ZeroPage()), d, 0, m.free[0], PTE_W + PTE_U);
    assert r.NoTable?;
    assert AllocLoop(m, d, 0, 1, 0) == AllocLoop(r.m, d, 1, 1, m.free[0]);
  }
}
