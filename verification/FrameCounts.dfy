/** vm.c: how many free pages allocuvm, setupkvm and copyuvm need, and exactly when they lose one. */
module FrameCounts {
  import opened PageTable
  import opened AddressSpace

  // ---- Pages and tables that are still to be had

  /** How many of the page tables p to q are missing. */
  ghost function Missing(m: Mem, d: int, p: int, q: int): nat
    decreases q - p
  {
    if p >= q then 0 else (if Table(m, d, p) == 0 then 1 else 0) + Missing(m, d, p + 1, q)
  }

  /** Free pages for mapping the user pages a to e: one each, and one for each missing table. */
  ghost function Needs(m: Mem, d: int, a: int, e: int): nat
  {
    if a >= e then 0 else (e - a) + Missing(m, d, Pdx(a), Pdx(e - 1) + 1)
  }

  /** Mapping from page a on, the last free page goes to page c, whose table is then missing. */
  ghost predicate Loses(m: Mem, d: int, a: int, c: int)
  {
    && |m.free| + 1 == Needs(m, d, a, c + 1)
    && Table(m, d, Pdx(c)) == 0 && (c == a || Pdx(c - 1) != Pdx(c))
  }

  /** m' is m after a page, and its table where that was missing, were taken for page v. */
  ghost predicate TookPage(m: Mem, m': Mem, d: int, v: int)
  {
    && |m'.free| == |m.free| - 1 - (if Table(m, d, Pdx(v)) == 0 then 1 else 0)
    && forall q :: Table(m', d, q) != 0 <==> q == Pdx(v) || Table(m, d, q) != 0
  }

  lemma {:induction false} MissingSame(m: Mem, m': Mem, d: int, p: int, q: int)
    requires forall x :: p <= x < q ==> (Table(m', d, x) != 0 <==> Table(m, d, x) != 0)
    ensures Missing(m', d, p, q) == Missing(m, d, p, q)
    decreases q - p
  {
    hide Table;
    if p < q { MissingSame(m, m', d, p + 1, q); }
  }

  lemma PdxNext(a: int, b: int)
    requires 0 <= a < b
    ensures Pdx(a + 1) == Pdx(a) || Pdx(a + 1) == Pdx(a) + 1
    ensures Pdx(a + 1) <= Pdx(b)
  {
  }

  lemma NeedsStep(m: Mem, m': Mem, d: int, a: int, e: int)
    requires TookPage(m, m', d, a) && 0 <= a < e
    ensures |m'.free| - Needs(m', d, a + 1, e) == |m.free| - Needs(m, d, a, e)
  {
    var p, q := Pdx(a), Pdx(e - 1) + 1;
    if a + 1 == e { assert Missing(m, d, p + 1, q) == 0; return; }
    PdxNext(a, e - 1);
    hide Table, Pdx;
    MissingSame(m, m', d, p + 1, q);
    assert Missing(m', d, p, q) == Missing(m', d, p + 1, q);
  }

  lemma LosesStep(m: Mem, m': Mem, d: int, a: int, c: int)
    requires TookPage(m, m', d, a) && 0 <= a < c
    ensures Loses(m', d, a + 1, c) <==> Loses(m, d, a, c)
  {
    NeedsStep(m, m', d, a, c + 1);
    assert Pdx(a) <= Pdx(c - 1) <= Pdx(c);
    hide Table, Pdx, Needs;
  }

  lemma LosesFirst(m: Mem, d: int, a: int)
    requires 0 <= a
    ensures Loses(m, d, a, a) <==> Table(m, d, Pdx(a)) == 0 && |m.free| == 1
    ensures Needs(m, d, a, a + 1) == if Table(m, d, Pdx(a)) == 0 then 2 else 1
  {
    assert Missing(m, d, Pdx(a) + 1, Pdx(a) + 1) == 0;
    hide Table, Pdx;
  }

  lemma {:induction false} MissingSplits(m: Mem, d: int, p: int, q: int, s: int)
    requires p <= q <= s
    ensures Missing(m, d, p, s) == Missing(m, d, p, q) + Missing(m, d, q, s)
    decreases q - p
  {
    hide Table;
    if p < q { MissingSplits(m, d, p + 1, q, s); }
  }

  /** More pages need more. */
  lemma NeedsMore(m: Mem, d: int, a: int, c: int, e: int)
    requires 0 <= a <= c <= e
    ensures Needs(m, d, a, c) + (e - c) <= Needs(m, d, a, e)
  {
    if a < c < e {
      var q, s := Pdx(c - 1) + 1, Pdx(e - 1) + 1;
      assert Pdx(a) <= q <= s;
      hide Table, Pdx;
      MissingSplits(m, d, Pdx(a), q, s);
    }
  }

  // ---- mappages

  lemma MapPageCount(m0: Mem, m: Mem, d: int, loose: int, v: int, frame: int, perm: int)
    requires Child(m0, m, d, loose) && 0 <= v < NPAGES
    ensures var w := MapPage(m, d, v, frame, perm); var missing := Table(m, d, Pdx(v)) == 0;
      && (w.NoTable? <==> missing && m.free == [])
      && (w.Done? ==> |w.m.free| == |m.free| - if missing then 1 else 0)
      && (w.Done? ==> forall q :: Table(w.m, d, q) != 0 <==> q == Pdx(v) || Table(m, d, q) != 0)
  {
    PageNumber(v, v);
    WalkKeeps(m0, m, d, loose, v);
    var missing := Table(m, d, Pdx(v)) == 0;
    if missing && m.free != [] { ReadyForTable(m, d, Pdx(v)); }
    var w := Walk(m, d, v);
    var e := Entry(frame, WithP(perm));
    if w.Done? {
      forall q ensures Table(SetPte(w.m, d, v, e), d, q) != 0 <==> q == Pdx(v) || Table(m, d, q) != 0 {
        SetPteTable(w.m, d, v, e, q);
        if missing { NewTableTable(m, d, Pdx(v), q); }
      }
    }
    hide Table, Pdx, Ptx, Entry, WithP, Child;
  }

  lemma TakeTable(m: Mem, d: int, content: Page, q: int)
    requires Space(m, d) && m.free != [] && 0 <= m.free[0] < |m.pages|
    ensures Table(Take(m, content), d, q) == Table(m, d, q)
  {
    TakeRef(m, d, content, 0, TableOf(q));
  }

  /** A page taken and mapped at page v: how many free pages it takes. */
  lemma TakeAndMap(m0: Mem, m: Mem, d: int, content: Page, v: int, perm: int)
    requires Child(m0, m, d, 0) && m.free != [] && 0 <= m.free[0] < |m.pages| && |content| == NENT && 0 <= v < NPAGES
    ensures var w := MapPage(Take(m, content), d, v, m.free[0], perm);
      && (w.NoTable? <==> Table(m, d, Pdx(v)) == 0 && |m.free| == 1)
      && (w.Done? ==> TookPage(m, w.m, d, v))
  {
    var m1 := Take(m, content);
    TakeChild(m0, m, d, content);
    MapPageCount(m0, m1, d, m.free[0], v, m.free[0], perm);
    forall q ensures Table(m1, d, q) == Table(m, d, q) { TakeTable(m, d, content, q); }
    hide Table, Pdx, Child, MapPage;
  }

  // ---- allocuvm

  lemma {:induction false} AllocLoopLost(m: Mem, d: int, a: int, e: int, lost: int)
    requires m.free == []
    ensures AllocLoop(m, d, a, e, lost) == if a >= e then Grew(m, lost) else OutOfPages(m, lost)
  {
  }

  /** What the loop does at page b, in free pages. */
  lemma AllocTurn(m0: Mem, m: Mem, d: int, a: int, b: int, e: int)
    requires GrowInv(m0, m, d, a, b, e)
    ensures 0 <= b
    ensures b >= e ==> AllocLoop(m, d, b, e, 0) == Grew(m, 0)
    ensures b < e && m.free == [] ==> AllocLoop(m, d, b, e, 0) == OutOfPages(m, 0)
    ensures b < e && m.free != [] ==>
      && 0 <= m.free[0] < |m.pages| && m.free[0] != 0
      && var r := MapPage(Take(m, ZeroPage()), d, b, m.free[0], PTE_W + PTE_U);
         && (r.NoTable? <==> Loses(m, d, b, b))
         && (r.Done? ==>
               && GrowInv(m0, r.m, d, a, b + 1, e) && TookPage(m, r.m, d, b)
               && AllocLoop(m, d, b, e, 0) == AllocLoop(r.m, d, b + 1, e, 0))
         && (r.NoTable? ==>
               AllocLoop(m, d, b, e, 0) == if b + 1 >= e then Grew(r.m, m.free[0]) else OutOfPages(r.m, m.free[0]))
  {
    if b < e && m.free != [] {
      GrowStep(m0, m, d, a, b, e);
      TakeAndMap(m0, m, d, ZeroPage(), b, PTE_W + PTE_U);
      LosesFirst(m, d, b);
      var r := MapPage(Take(m, ZeroPage()), d, b, m.free[0], PTE_W + PTE_U);
      if r.NoTable? { AllocLoopLost(r.m, d, b + 1, e, m.free[0]); }
      hide MapPage, Child, Pte, Table, Take, Present, Loses;
    }
  }

  lemma NeedsNothing(m: Mem, d: int, a: int, e: int)
    ensures a >= e ==> Needs(m, d, a, e) == 0
    ensures a < e ==> Needs(m, d, a, e) >= e - a
    ensures Loses(m, d, a, e) && a <= e ==> |m.free| >= 1
  {
  }

  /** allocuvm from page b to page e maps all its pages if and only if there are as many free pages as it
      needs.  A page is lost if and only if the last free one goes to a page whose table is missing; if that
      page is the last, the call succeeds all the same. */
  lemma {:induction false} AllocLoopCount(m0: Mem, m: Mem, d: int, a: int, b: int, e: int)
    requires GrowInv(m0, m, d, a, b, e)
    ensures var g := AllocLoop(m, d, b, e, 0);
      && (g.Grew? && g.lost == 0 <==> |m.free| >= Needs(m, d, b, e))
      && (g.Grew? && g.lost != 0 <==> b < e && Loses(m, d, b, e - 1))
      && (g.lost != 0 <==> exists c :: b <= c < e && Loses(m, d, b, c))
    decreases e - b
  {
    hide *;
    AllocTurn(m0, m, d, a, b, e);
    NeedsNothing(m, d, b, e);
    if b >= e { return; }
    forall c | b <= c < e ensures Loses(m, d, b, c) ==> m.free != [] { NeedsNothing(m, d, b, c); }
    if m.free == [] { return; }
    LosesFirst(m, d, b);
    var r := MapPage(Take(m, ZeroPage()), d, b, m.free[0], PTE_W + PTE_U);
    if r.Done? {
      var b' := b + 1;
      AllocLoopCount(m0, r.m, d, a, b', e);
      NeedsStep(m, r.m, d, b, e);
      forall c | b < c < e ensures Loses(r.m, d, b + 1, c) <==> Loses(m, d, b, c) { LosesStep(m, r.m, d, b, c); }
      if c :| b <= c < e && Loses(m, d, b, c) { assert Loses(r.m, d, b + 1, c); }
      if c :| b' <= c < e && Loses(r.m, d, b', c) { assert Loses(m, d, b, c); }
    } else {
      LosesOnce(m, d, b, e);
    }
  }

  /** The first page of a missing table that takes the last free page: a call that goes on cannot succeed. */
  lemma LosesOnce(m: Mem, d: int, b: int, e: int)
    requires 0 <= b < e && Loses(m, d, b, b)
    ensures |m.free| < Needs(m, d, b, e)
    ensures b < e - 1 ==> !Loses(m, d, b, e - 1)
  {
    NeedsMore(m, d, b, b + 1, e);
  }

  // ---- allocuvm that fails

  /** m' is m with pages a to c mapped: other entries and the tables there were are as in m. */
  ghost predicate GrownTo(m: Mem, m': Mem, d: int, a: int, c: int)
  {
    && (forall v :: if a <= v < c then Present(Pte(m', d, v)) else Pte(m', d, v) == Pte(m, d, v))
    && forall q :: Table(m, d, q) != 0 ==> Table(m', d, q) == Table(m, d, q)
  }

  lemma MapPageKeepsTable(m0: Mem, m: Mem, d: int, loose: int, v: int, frame: int, perm: int, q: int)
    requires Child(m0, m, d, loose) && 0 <= v < NPAGES && Table(m, d, q) != 0
    ensures Table(MapPage(m, d, v, frame, perm).m, d, q) == Table(m, d, q)
  {
    WalkKeeps(m0, m, d, loose, v);
    if q != Pdx(v) { MapPageTable(m0, m, d, loose, v, frame, perm, q); return; }
    SetPteTable(m, d, v, Entry(frame, WithP(perm)), q);
  }

  lemma GrowOne(m0: Mem, m: Mem, d: int, a: int, b: int, e: int)
    requires GrowInv(m0, m, d, a, b, e) && b < e && m.free != [] && 0 <= m.free[0] < |m.pages|
    ensures var r := MapPage(Take(m, ZeroPage()), d, b, m.free[0], PTE_W + PTE_U);
      GrownTo(m, r.m, d, b, if r.Done? then b + 1 else b)
  {
    GrowTake(m0, m, d, a, b, e);
    GrowStep(m0, m, d, a, b, e);
    var m1 := Take(m, ZeroPage());
    var r := MapPage(m1, d, b, m.free[0], PTE_W + PTE_U);
    forall q | Table(m, d, q) != 0 ensures Table(r.m, d, q) == Table(m, d, q) {
      TakeTable(m, d, ZeroPage(), q);
      MapPageKeepsTable(m0, m1, d, m.free[0], b, m.free[0], PTE_W + PTE_U, q);
    }
    MapPageKeeps(m0, m1, d, m.free[0], b, m.free[0], PTE_W + PTE_U);
    if r.Done? { assert NewPageAt(r.m, d, b); FlagsTellPresent(Pte(r.m, d, b)); }
    hide MapPage, Child, Pte, Table, Take, Present, Flags;
  }

  lemma GrownTwice(m: Mem, m1: Mem, m2: Mem, d: int, b: int, c: int)
    requires GrownTo(m, m1, d, b, b + 1) && GrownTo(m1, m2, d, b + 1, c) && b < c
    ensures GrownTo(m, m2, d, b, c)
  {
    hide Pte, Table, Present;
    forall v | b <= v < c ensures Present(Pte(m2, d, v)) { }
  }

  lemma GrownNone(m: Mem, d: int, b: int)
    ensures GrownTo(m, m, d, b, b)
  {
  }

  /** The loop maps a first part of its pages, however it ends. */
  lemma {:induction false} AllocLoopGrows(m0: Mem, m: Mem, d: int, a: int, b: int, e: int) returns (c: int)
    requires GrowInv(m0, m, d, a, b, e)
    ensures b <= c <= e && GrownTo(m, AllocLoop(m, d, b, e, 0).m, d, b, c)
    decreases e - b
  {
    hide *;
    AllocTurn(m0, m, d, a, b, e);
    InRange(m0, m, d, a, b, e);
    GrownNone(m, d, b);
    c := b;
    if b < e && m.free != [] {
      GrowOne(m0, m, d, a, b, e);
      var r := MapPage(Take(m, ZeroPage()), d, b, m.free[0], PTE_W + PTE_U);
      if r.Done? {
        c := AllocLoopGrows(m0, r.m, d, a, b + 1, e);
        GrownTwice(m, r.m, AllocLoop(r.m, d, b + 1, e, 0).m, d, b, c);
      }
    }
  }

  lemma InRange(m0: Mem, m: Mem, d: int, a: int, b: int, e: int)
    requires GrowInv(m0, m, d, a, b, e)
    ensures 0 <= a <= b <= e <= KERNPAGE && Child(m0, m, d, 0)
  {
  }

  /** f is a page table of m' that m did not have. */
  ghost predicate TableAdded(m: Mem, m': Mem, d: int, f: int)
  {
    exists p :: Table(m, d, p) == 0 && Table(m', d, p) == f && f != 0
  }

  /** m' has unmapped all pages from a to e again, and has every other entry and table of m. */
  ghost predicate RolledBack(m: Mem, m': Mem, d: int, a: int, e: int)
  {
    && (forall v :: if a <= v < e then !Present(Pte(m', d, v)) else Pte(m', d, v) == Pte(m, d, v))
    && forall q :: Table(m, d, q) != 0 ==> Table(m', d, q) == Table(m, d, q)
  }

  lemma RollsBack(m0: Mem, m: Mem, m1: Mem, d: int, a: int, c: int, e: int)
    requires Child(m0, m1, d, 0) && GrownTo(m, m1, d, a, c) && 0 <= a <= c <= e <= KERNPAGE
    requires forall v :: a <= v < e ==> !Present(Pte(m, d, v))
    ensures RolledBack(m, Dealloc(m1, d, a, e), d, a, e)
  {
    var m' := Dealloc(m1, d, a, e);
    DeallocKeeps(m0, m1, d, a, e);
    assert !Present(0);
    if InStep(m1, d, a) || a == e {
      DeallocClearsIff(m0, m1, d, a, e);
    } else {
      assert Pte(m1, d, a) == 0;
      assert c == a;
    }
    hide Dealloc, Pte, Table, Present, Child;
    forall v ensures if a <= v < e then !Present(Pte(m', d, v)) else Pte(m', d, v) == Pte(m, d, v) { }
  }

  /** What was held is held; what is held beside it are added tables. */
  lemma RolledBackHeld(m: Mem, m': Mem, d: int, a: int, e: int, f: int)
    requires RolledBack(m, m', d, a, e) && Space(m', d) && forall v :: a <= v < e ==> !Present(Pte(m, d, v))
    ensures Held(m', d, f) <==> Held(m, d, f) || TableAdded(m, m', d, f)
    ensures TableAdded(m, m', d, f) ==> !Held(m, d, f)
  {
    forall at ensures Ref(m, d, at) != 0 ==> Ref(m', d, at) == Ref(m, d, at) {
      if at.PageOf? { assert UserFrame(m, d, at.v) != 0 ==> !(a <= at.v < e); }
    }
    forall at: Place ensures at.TableOf? || Ref(m', d, at) == Ref(m, d, at) {
      if at.PageOf? && a <= at.v < e { assert UserFrame(m', d, at.v) == 0; }
    }
    hide UserFrame, RolledBack;
    if Held(m, d, f) {
      var at :| Ref(m, d, at) == f && f != 0;
      assert Ref(m', d, at) == f;
      assert forall p :: InjAt(m', d, at, TableOf(p));
    }
    if Held(m', d, f) {
      var at :| Ref(m', d, at) == f && f != 0;
      if at.TableOf? && Table(m, d, at.p) != 0 { assert Ref(m, d, at) == f; }
      if at.TableOf? && Table(m, d, at.p) == 0 { assert TableAdded(m, m', d, f); }
    }
    if p :| Table(m, d, p) == 0 && Table(m', d, p) == f && f != 0 { assert Ref(m', d, TableOf(p)) == f; }
  }

  /** allocuvm that fails: after its deallocuvm no page of its range is mapped, all other entries and tables
      are as before, and every page that was free is free again, but for the tables it added and the page it
      lost. */
  lemma AllocFailure(m0: Mem, m: Mem, d: int, a: int, e: int)
    requires GrowInv(m0, m, d, a, a, e) && AllocLoop(m, d, a, e, 0).OutOfPages?
    ensures var g := AllocLoop(m, d, a, e, 0); var m' := Dealloc(g.m, d, a, e);
      && RolledBack(m, m', d, a, e) && Space(m', d)
      && forall f :: f in m.free <==> f in m'.free || TableAdded(m, m', d, f) || (f == g.lost && f != 0)
  {
    hide *;
    InRange(m0, m, d, a, a, e);
    NotMapped(m0, m, d, a, e);
    AllocLoopOutcome(m0, m, d, a, a, e);
    var g := AllocLoop(m, d, a, e, 0);
    var m' := Dealloc(g.m, d, a, e);
    var c := AllocLoopGrows(m0, m, d, a, a, e);
    var m1 := if g.lost == 0 then m0 else Without(m0, g.m, g.lost);
    ResultChild(m0, d, a, e, g);
    RollsBack(m1, m, g.m, d, a, c, e);
    DeallocKeeps(m1, g.m, d, a, e);
    ChildSpace(m1, m', d);
    forall f ensures f in m.free <==> f in m'.free || TableAdded(m, m', d, f) || (f == g.lost && f != 0) {
      RolledBackHeld(m, m', d, a, e, f);
      FrameSplit(m0, m, d, 0, f);
      FrameSplit(m1, m', d, 0, f);
      LostFrame(m0, g, d, a, e, f);
    }
  }

  lemma NotMapped(m0: Mem, m: Mem, d: int, a: int, e: int)
    requires GrowInv(m0, m, d, a, a, e)
    ensures forall v :: a <= v < e ==> !Present(Pte(m, d, v))
  {
  }

  lemma ChildSpace(m0: Mem, m: Mem, d: int)
    requires Child(m0, m, d, 0)
    ensures Space(m, d)
  {
  }

  lemma ResultChild(m0: Mem, d: int, a: int, e: int, g: Grow)
    requires GrowResult(m0, d, a, e, g)
    ensures Child(if g.lost == 0 then m0 else Without(m0, g.m, g.lost), g.m, d, 0)
  {
    if g.lost != 0 { ForgetLoose(m0, g.m, d, g.lost); }
  }

  /** A frame that was free is free or held, never both. */
  lemma FrameSplit(m0: Mem, m: Mem, d: int, loose: int, f: int)
    requires Child(m0, m, d, loose)
    ensures f in m0.free <==> f in m.free || Held(m, d, f) || (f == loose && f != 0)
    ensures !(f in m.free && Held(m, d, f))
  {
    assert AcctAt(m0, m, d, loose, f);
    HeldNotFree(m, d, f);
  }

  lemma LostFrame(m0: Mem, g: Grow, d: int, a: int, e: int, f: int)
    requires GrowResult(m0, d, a, e, g)
    ensures f in (if g.lost == 0 then m0 else Without(m0, g.m, g.lost)).free <==> f in m0.free && (f != g.lost || f == 0)
    ensures g.lost != 0 ==> g.lost in m0.free
  {
    if g.lost != 0 {
      LowNotZero(g.m);
      RemoveIs(m0.free, g.lost, f);
      FrameSplit(m0, g.m, d, g.lost, g.lost);
    }
  }

  // ---- setupkvm

  /** The page tables that an address space has. */
  ghost function Tables(m: Mem, d: int): set<int>
  {
    set p | 0 <= p < NENT && Table(m, d, p) != 0
  }

  /** The directory slots of the pages of k. */
  function RangeSlots(k: Kmap): set<int>
    decreases k.n
  {
    if k.n == 0 then {} else {Pdx(k.v)} + RangeSlots(Kmap(k.v + 1, k.frame + 1, k.n - 1, k.perm))
  }

  /** The directory slots of the pages of a kernel map. */
  function Slots(kmap: seq<Kmap>): set<int>
  {
    if kmap == [] then {} else RangeSlots(kmap[0]) + Slots(kmap[1..])
  }

  lemma {:induction false} RangeSlotsAre(k: Kmap, p: int)
    ensures p in RangeSlots(k) <==> exists u :: Covers(k, u) && Pdx(u) == p
    decreases k.n
  {
    if k.n == 0 { return; }
    hide Pdx;
    var k' := Kmap(k.v + 1, k.frame + 1, k.n - 1, k.perm);
    RangeSlotsAre(k', p);
    if p == Pdx(k.v) { assert Covers(k, k.v); }
    if u :| Covers(k', u) && Pdx(u) == p { assert Covers(k, u); }
    if u :| Covers(k, u) && Pdx(u) == p { assert u == k.v || Covers(k', u); }
  }

  lemma {:induction false} SlotsAre(kmap: seq<Kmap>, p: int)
    ensures p in Slots(kmap) <==> exists x, u :: 0 <= x < |kmap| && Covers(kmap[x], u) && Pdx(u) == p
  {
    if kmap == [] { return; }
    hide Pdx, Covers, RangeSlots;
    var rest := kmap[1..];
    RangeSlotsAre(kmap[0], p);
    SlotsAre(rest, p);
    if x, u :| 0 <= x < |rest| && Covers(rest[x], u) && Pdx(u) == p { assert kmap[x + 1] == rest[x]; }
    if x, u :| 0 <= x < |kmap| && Covers(kmap[x], u) && Pdx(u) == p {
      if x > 0 { assert rest[x - 1] == kmap[x]; }
    }
  }

  /** Mapping a page or pages takes the tables of `slots` that were missing, or fails for want of one. */
  ghost predicate TookTables(m: Mem, d: int, slots: set<int>, w: Mapping)
  {
    var need := |slots - Tables(m, d)|;
    && (w.NoTable? <==> |m.free| < need)
    && (w.Done? ==> |w.m.free| == |m.free| - need && Tables(w.m, d) == Tables(m, d) + slots)
  }

  lemma OneSlot(m: Mem, d: int, p: int)
    requires 0 <= p < NENT
    ensures |{p} - Tables(m, d)| == if Table(m, d, p) == 0 then 1 else 0
  {
    hide Table;
    assert p in Tables(m, d) <==> Table(m, d, p) != 0;
    hide Tables;
    if Table(m, d, p) == 0 { assert {p} - Tables(m, d) == {p}; } else { assert {p} - Tables(m, d) == {}; }
  }

  lemma MapPageTables(m0: Mem, m: Mem, d: int, v: int, frame: int, perm: int)
    requires Child(m0, m, d, 0) && 0 <= v < NPAGES
    ensures TookTables(m, d, {Pdx(v)}, MapPage(m, d, v, frame, perm))
  {
    MapPageCount(m0, m, d, 0, v, frame, perm);
    PageNumber(v, v);
    OneSlot(m, d, Pdx(v));
    hide Table, Pdx, MapPage, Child;
    var w := MapPage(m, d, v, frame, perm);
    if w.Done? { AddedSlot(m, w.m, d, Pdx(v)); }
  }

  lemma AddedSlot(m: Mem, m': Mem, d: int, p: int)
    requires 0 <= p < NENT && forall q :: Table(m', d, q) != 0 <==> q == p || Table(m, d, q) != 0
    ensures Tables(m', d) == Tables(m, d) + {p}
  {
    hide Table;
  }

  lemma TookBoth(m: Mem, d: int, s1: set<int>, s2: set<int>, w1: Mapping, w2: Mapping)
    requires TookTables(m, d, s1, w1) && w1.Done? && TookTables(w1.m, d, s2, w2)
    ensures TookTables(m, d, s1 + s2, w2)
  {
    var t := Tables(m, d);
    hide Tables;
    assert (s1 + s2) - t == (s1 - t) + (s2 - (t + s1));
    assert (s1 - t) !! (s2 - (t + s1));
  }

  lemma TookFirst(m: Mem, d: int, s1: set<int>, s2: set<int>, w: Mapping)
    requires TookTables(m, d, s1, w) && w.NoTable?
    ensures TookTables(m, d, s1 + s2, w)
  {
    var t := Tables(m, d);
    hide Tables;
    assert (s1 + s2) - t == (s1 - t) + (s2 - (t + s1));
    assert (s1 - t) !! (s2 - (t + s1));
  }

  lemma TookNone(m: Mem, d: int)
    ensures TookTables(m, d, {}, Done(m))
  {
    assert {} - Tables(m, d) == {};
  }

  lemma {:induction false} MapRangeTables(m0: Mem, m: Mem, d: int, k: Kmap)
    requires Child(m0, m, d, 0) && KERNPAGE <= k.v && k.v + k.n <= NPAGES && 0 <= k.perm < PGSIZE
    ensures TookTables(m, d, RangeSlots(k), MapRange(m, d, k))
    decreases k.n
  {
    hide MapPage, Child, Pte, Entry, WithP, TookTables, Tables, Pdx;
    if k.n == 0 { TookNone(m, d); return; }
    MapPageTables(m0, m, d, k.v, k.frame, k.perm);
    MapPageKeeps(m0, m, d, 0, k.v, k.frame, k.perm);
    var w := MapPage(m, d, k.v, k.frame, k.perm);
    var k' := Kmap(k.v + 1, k.frame + 1, k.n - 1, k.perm);
    if w.Done? {
      MapRangeTables(m0, w.m, d, k');
      TookBoth(m, d, {Pdx(k.v)}, RangeSlots(k'), w, MapRange(w.m, d, k'));
    } else {
      TookFirst(m, d, {Pdx(k.v)}, RangeSlots(k'), w);
    }
  }

  lemma {:induction false} MapAllTables(m0: Mem, m: Mem, d: int, kmap: seq<Kmap>)
    requires Child(m0, m, d, 0) && ValidKmap(kmap)
    ensures TookTables(m, d, Slots(kmap), MapAll(m, d, kmap))
    decreases |kmap|
  {
    hide MapRange, Child, TookTables, Tables, RangeSlots;
    if kmap == [] { TookNone(m, d); return; }
    var rest := kmap[1..];
    MapRangeTables(m0, m, d, kmap[0]);
    MapRangeKeeps(m0, m, d, kmap[0]);
    var w := MapRange(m, d, kmap[0]);
    if w.Done? {
      assert forall x :: 0 <= x < |rest| ==> rest[x] == kmap[x + 1];
      MapAllTables(m0, w.m, d, rest);
      TookBoth(m, d, RangeSlots(kmap[0]), Slots(rest), w, MapAll(w.m, d, rest));
    } else {
      TookFirst(m, d, RangeSlots(kmap[0]), Slots(rest), w);
    }
  }

  /** Free pages for a kernel map: the directory and one table for each slot. */
  function KernelPages(kmap: seq<Kmap>): nat
  {
    1 + |Slots(kmap)|
  }

  /** setupkvm succeeds if and only if the free pages suffice, and then takes exactly so many; it loses pages
      if and only if there were some and too few, and then all of them. */
  lemma SetupKvmCount(m: Mem, kmap: seq<Kmap>)
    requires Shape(m) && ValidKmap(kmap)
    ensures var s := SetupKvm(m, kmap); var k := KernelPages(kmap);
      && (s.SetupDone? <==> |m.free| >= k)
      && (s.SetupDone? ==> |s.m.free| == |m.free| - k && Tables(s.m, s.d) == Slots(kmap))
      && (s.SetupFailed? ==> s.m.free == [])
  {
    SetupKvmOutcome(m, kmap);
    hide MapAll, Child, Shape, ValidKmap, Slots, Table;
    if m.free == [] { return; }
    SetupStart(m, kmap);
    var m1 := Take(m, ZeroPage());
    assert Slots(kmap) - {} == Slots(kmap);
    assert |m1.free| == |m.free| - 1;
  }

  lemma SetupStart(m: Mem, kmap: seq<Kmap>)
    requires Shape(m) && ValidKmap(kmap) && m.free != []
    ensures 0 <= m.free[0] < |m.pages|
    ensures var m1 := Take(m, ZeroPage()); var d := m.free[0];
      Tables(m1, d) == {} && TookTables(m1, d, Slots(kmap), MapAll(m1, d, kmap))
  {
    assert FreeAt(m, 0);
    EmptySpace(m);
    var d, m1 := m.free[0], Take(m, ZeroPage());
    MapAllTables(m, m1, d, kmap);
    hide MapAll, Child, Shape, ValidKmap, Slots;
    assert forall p :: Table(m1, d, p) == 0;
  }

  // ---- copyuvm

  lemma CopyLoopTurn(m0: Mem, m: Mem, pg: int, d: int, i: int, n: int)
    requires CopyInv(m0, m, pg, d, i, n)
    ensures 0 <= i
    ensures i >= n ==> CopyLoop(m, pg, d, i, n).Copied?
    ensures i < n && m.free == [] ==> CopyLoop(m, pg, d, i, n).NoData?
    ensures i < n && m.free != [] ==>
      && 0 <= m.free[0] < |m.pages|
      && var r := MapPage(Take(m, CopyContent(m, pg, i)), d, i, m.free[0], Flags(Pte(m, pg, i)));
         && (r.NoTable? <==> Loses(m, d, i, i))
         && (r.NoTable? ==> CopyLoop(m, pg, d, i, n).NoTables?)
         && (r.Done? ==>
               && CopyInv(m0, r.m, pg, d, i + 1, n) && TookPage(m, r.m, d, i)
               && CopyLoop(m, pg, d, i, n) == CopyLoop(r.m, pg, d, i + 1, n))
  {
    if i < n && m.free != [] {
      CopyStep(m0, m, pg, d, i, n);
      ParentSame(m0, m, d, pg, n, i);
      TakeAndMap(m0, m, d, CopyContent(m, pg, i), i, Flags(Pte(m, pg, i)));
      LosesFirst(m, d, i);
      hide MapPage, Child, Pte, Table, Take, Present, Loses, Flags;
    }
  }

  lemma {:induction false} CopyLoopCount(m0: Mem, m: Mem, pg: int, d: int, i: int, n: int)
    requires CopyInv(m0, m, pg, d, i, n)
    ensures var r := CopyLoop(m, pg, d, i, n);
      && (r.Copied? <==> |m.free| >= Needs(m, d, i, n))
      && (r.NoTables? <==> exists c :: i <= c < n && Loses(m, d, i, c))
    decreases n - i
  {
    hide *;
    CopyLoopTurn(m0, m, pg, d, i, n);
    NeedsNothing(m, d, i, n);
    if i >= n { return; }
    forall c | i <= c < n ensures Loses(m, d, i, c) ==> m.free != [] { NeedsNothing(m, d, i, c); }
    if m.free == [] { return; }
    var r := MapPage(Take(m, CopyContent(m, pg, i)), d, i, m.free[0], Flags(Pte(m, pg, i)));
    if r.Done? {
      var i' := i + 1;
      CopyLoopCount(m0, r.m, pg, d, i', n);
      NeedsStep(m, r.m, d, i, n);
      forall c | i < c < n ensures Loses(r.m, d, i', c) <==> Loses(m, d, i, c) { LosesStep(m, r.m, d, i, c); }
      if c :| i <= c < n && Loses(m, d, i, c) { assert Loses(r.m, d, i', c); }
      if c :| i' <= c < n && Loses(r.m, d, i', c) { assert Loses(m, d, i, c); }
    } else {
      LosesOnce(m, d, i, n);
    }
  }

  lemma {:induction false} MissingAll(m: Mem, d: int, p: int, q: int)
    requires p <= q && forall x :: p <= x < q ==> Table(m, d, x) == 0
    ensures Missing(m, d, p, q) == q - p
    decreases q - p
  {
    hide Table;
    if p < q { MissingAll(m, d, p + 1, q); }
  }

  lemma TableOfLast(n: int)
    requires 0 < n
    ensures Pdx(n - 1) + 1 == (n + 1023) / 1024
  {
  }

  /** With no user table yet, n pages need one page each and one for each 1024. */
  lemma NeedsEmpty(m: Mem, d: int, n: int)
    requires 0 <= n <= KERNPAGE && forall p :: 0 <= p < KERNPAGE / NENT ==> Table(m, d, p) == 0
    ensures Needs(m, d, 0, n) == n + (n + 1023) / 1024
  {
    if n > 0 {
      TableOfLast(n);
      assert Pdx(0) == 0 && Pdx(n - 1) < KERNPAGE / NENT;
      hide Table, Pdx;
      MissingAll(m, d, 0, Pdx(n - 1) + 1);
    }
  }

  /** With r free pages beyond the kernel's, the last one goes to the first page under a new table. */
  predicate OneTooFew(r: int, n: int)
  {
    r % 1025 == 1 && r / 1025 * 1024 < n
  }

  lemma FirstOfTable(c: int, r: int)
    requires 0 <= c && 0 <= r
    ensures (r + 1 == (c + 1) + (c + 1 + 1023) / 1024 && (c == 0 || Pdx(c - 1) != Pdx(c)))
        <==> r % 1025 == 1 && c == r / 1025 * 1024
  {
    assert (c == 0 || Pdx(c - 1) != Pdx(c)) <==> c % 1024 == 0;
    var k := c / 1024;
    if c % 1024 == 0 {
      assert c == k * 1024 && (c + 1 + 1023) / 1024 == k + 1;
      if r == 1025 * k + 1 { assert r % 1025 == 1 && r / 1025 == k; }
    }
  }

  lemma LosesEmpty(m: Mem, d: int, n: int)
    requires 0 <= n <= KERNPAGE && forall p :: 0 <= p < KERNPAGE / NENT ==> Table(m, d, p) == 0
    ensures (exists c :: 0 <= c < n && Loses(m, d, 0, c)) <==> OneTooFew(|m.free|, n)
  {
    var r := |m.free|;
    hide Table;
    forall c | 0 <= c < n ensures Loses(m, d, 0, c) <==> r % 1025 == 1 && c == r / 1025 * 1024 {
      NeedsEmpty(m, d, c + 1);
      FirstOfTable(c, r);
      assert 0 <= Pdx(c) < KERNPAGE / NENT;
      assert Table(m, d, Pdx(c)) == 0;
      hide Needs, Pdx;
    }
    hide Loses;
    if OneTooFew(r, n) { assert Loses(m, d, 0, r / 1025 * 1024); }
  }

  /** The free pages of m' are those of m but for one; pages that were in use are as they were. */
  ghost predicate OneShort(m: Mem, m': Mem)
  {
    && Shape(m') && (forall f {:trigger OutAt(m, m', f)} :: OutAt(m, m', f))
    && exists lost :: lost in m.free && forall f :: f in m'.free <==> f in m.free && f != lost
  }

  lemma IsOneShort(m: Mem, m1: Mem, lost: int, m': Mem)
    requires Shape(m) && lost in m.free && |m1.pages| == |m.pages| && Restored(Without(m, m1, lost), m')
    ensures OneShort(m, m')
  {
    var k :| 0 <= k < |m.free| && m.free[k] == lost;
    assert FreeAt(m, k);
    var m2 := Without(m, m1, lost);
    forall f ensures OutAt(m, m', f) && (f in m2.free ==> f in m.free) {
      assert OutAt(m2, m', f);
      RemoveIs(m.free, lost, f);
    }
    forall f ensures f in m'.free <==> f in m.free && f != lost { RemoveIs(m.free, lost, f); }
  }

  lemma CopyUvmCases(m: Mem, pg: int, n: int, kmap: seq<Kmap>)
    requires Shape(m) && ValidKmap(kmap) && Parent(m, pg, n)
    ensures var c := CopyUvm(m, pg, n, kmap); var s := SetupKvm(m, kmap);
      if s.SetupFailed? then c.CopyFailed? && c.m.free == []
      else match CopyLoop(s.m, pg, s.d, 0, n)
        case Copied(_, _) => c.CopyOk?
        case NoData(_, _) => c.CopyFailed? && Restored(m, c.m)
        case NoTables(_, _, _) => c.CopyFailed? && OneShort(m, c.m)
  {
    CopyUvmOutcome(m, pg, n, kmap);
    hide SetupKvm, CopyLoop, Freevm, Shape, ValidKmap, Parent, Child, Restored, OneShort, Without, Pte, Maps, CopiedAt;
    var c := CopyUvm(m, pg, n, kmap);
    var s := SetupKvm(m, kmap);
    if s.SetupDone? {
      var loop := CopyLoop(s.m, pg, s.d, 0, n);
      if loop.NoTables? { IsOneShort(m, loop.m, loop.lost, c.m); }
    }
  }

  /** copyuvm of n pages, against the free pages beyond the kernel's: it succeeds if and only if they suffice
      for the pages and their tables.  If it fails it restores the free pages exactly, except that exactly one
      is lost when the last free page went to the first page under a new table, and all when the kernel's own
      mappings could not be made. */
  lemma CopyUvmCount(m: Mem, pg: int, n: int, kmap: seq<Kmap>)
    requires Shape(m) && ValidKmap(kmap) && Parent(m, pg, n)
    ensures var c := CopyUvm(m, pg, n, kmap); var r := |m.free| - KernelPages(kmap);
      && (c.CopyOk? <==> r >= n + (n + 1023) / 1024)
      && (r < 0 ==> c.CopyFailed? && c.m.free == [])
      && (r >= 0 && OneTooFew(r, n) ==> c.CopyFailed? && OneShort(m, c.m))
      && (r >= 0 && !OneTooFew(r, n) && c.CopyFailed? ==> Restored(m, c.m))
  {
    hide *;
    SetupKvmCount(m, kmap);
    CopyUvmCases(m, pg, n, kmap);
    NatParent(m, pg, n);
    var s := SetupKvm(m, kmap);
    if s.SetupFailed? { return; }
    NoUserTable(m, kmap);
    CopyBegins(m, pg, n, kmap);
    CopyLoopCount(m, s.m, pg, s.d, 0, n);
    NeedsEmpty(s.m, s.d, n);
    LosesEmpty(s.m, s.d, n);
  }

  lemma NatParent(m: Mem, pg: int, n: int)
    requires Parent(m, pg, n)
    ensures 0 <= n <= KERNPAGE && n + (n + 1023) / 1024 >= 0
  {
  }

  lemma NoUserTable(m: Mem, kmap: seq<Kmap>)
    requires Shape(m) && ValidKmap(kmap) && SetupKvm(m, kmap).SetupDone?
    ensures var s := SetupKvm(m, kmap); forall p :: 0 <= p < KERNPAGE / NENT ==> Table(s.m, s.d, p) == 0
  {
    var s := SetupKvm(m, kmap);
    SetupKvmCount(m, kmap);
    hide SetupKvm, Table;
    assert forall x, u :: 0 <= x < |kmap| && Covers(kmap[x], u) ==> KERNPAGE / NENT <= Pdx(u);
    hide Covers, ValidKmap, Pdx;
    forall p | 0 <= p < KERNPAGE / NENT ensures Table(s.m, s.d, p) == 0 {
      SlotsAre(kmap, p);
      assert p in Tables(s.m, s.d) <==> Table(s.m, s.d, p) != 0;
    }
  }

  lemma CopyBegins(m: Mem, pg: int, n: int, kmap: seq<Kmap>)
    requires Shape(m) && ValidKmap(kmap) && Parent(m, pg, n) && SetupKvm(m, kmap).SetupDone?
    ensures var s := SetupKvm(m, kmap); CopyInv(m, s.m, pg, s.d, 0, n)
  {
    SetupKvmOutcome(m, kmap);
    assert !Present(0);
    UserEmpty(kmap);
  }

  // ---- The kernel's own map

  function Span(a: int, b: int): set<int>
    decreases b - a
  {
    if a >= b then {} else {a} + Span(a + 1, b)
  }

  lemma {:induction false} SpanIs(a: int, b: int)
    requires a <= b
    ensures |Span(a, b)| == b - a && forall p :: p in Span(a, b) <==> a <= p < b
    decreases b - a
  {
    if a < b { SpanIs(a + 1, b); }
  }

  lemma KernelSlot(data: nat, p: int)
    requires 0x100 <= data <= 0xE000
    ensures p in Slots(KernelMap(data)) <==> 512 <= p < 568 || 1016 <= p < 1024
  {
    var kmap := KernelMap(data);
    SlotsAre(kmap, p);
    if 512 <= p < 568 {
      var u := p * NENT;
      var x := if u < KERNPAGE + 0x100 then 0 else if u < KERNPAGE + data then 1 else 2;
      assert Covers(kmap[x], u) && Pdx(u) == p;
    }
    if 1016 <= p < 1024 { assert Covers(kmap[3], p * NENT) && Pdx(p * NENT) == p; }
  }

  lemma TwoSpans(s: set<int>, a: int, b: int, c: int, e: int)
    requires a <= b <= c <= e && forall p :: p in s <==> a <= p < b || c <= p < e
    ensures |s| == (b - a) + (e - c)
  {
    SpanIs(a, b);
    SpanIs(c, e);
    var x, y := Span(a, b), Span(c, e);
    assert forall p :: p in x ==> p !in y;
    assert forall p :: p in s <==> p in x + y;
    assert s == x + y && x !! y;
  }

  /** Every address space takes 65 pages for the kernel, wherever the kernel's data start. */
  lemma KernelPagesAre(data: nat)
    requires 0x100 <= data <= 0xE000
    ensures KernelPages(KernelMap(data)) == 65
  {
    var s := Slots(KernelMap(data));
    hide KernelMap, Slots;
    forall p ensures p in s <==> 512 <= p < 568 || 1016 <= p < 1024 { KernelSlot(data, p); }
    TwoSpans(s, 512, 568, 1016, 1024);
  }

  /** With one free page setupkvm fails and loses it. */
  lemma SetupLosesExample()
    ensures Boot(1).free != []
    ensures SetupKvm(Boot(1), KernelMap(0x100)).SetupFailed? && SetupKvm(Boot(1), KernelMap(0x100)).m.free == []
  {
    BootShape(1);
    KernelMapValid(0x100);
    KernelPagesAre(0x100);
    hide KernelMap, Slots, SetupKvm;
    SetupKvmCount(Boot(1), KernelMap(0x100));
  }

  /** A process of one page, and k free pages from frame 4 on. */
  function OneProcess(k: nat): Mem
  {
    Mem(1, seq(k + 4, f => ProcessPage(k, f)), seq(k, x => x + 4))
  }

  function ProcessPage(k: nat, f: int): (r: Page)
    ensures |r| == NENT
  {
    if f == 1 then ZeroPage()[0 := Entry(2, PTE_P + PTE_W + PTE_U)]
    else if f == 2 then ZeroPage()[0 := Entry(3, PTE_P + PTE_W + PTE_U)]
    else if f < 4 then ZeroPage()
    else JunkPage(Link(seq(k, x => x + 4), f - 3))
  }

  lemma OneProcessIs(k: nat)
    ensures Shape(OneProcess(k)) && |OneProcess(k).free| == k && Parent(OneProcess(k), 1, 1)
  {
    var m := OneProcess(k);
    forall f ensures PageAt(m, f) { }
    forall x ensures FreeAt(m, x) { }
    EntryParts(2, PTE_P + PTE_W + PTE_U);
    EntryParts(3, PTE_P + PTE_W + PTE_U);
    hide Entry, Frame, Present;
    assert Pdx(0) == 0 && Ptx(0) == 0;
    assert Word(m, 1, 0) == Entry(2, PTE_P + PTE_W + PTE_U) && Word(m, 2, 0) == Entry(3, PTE_P + PTE_W + PTE_U);
    assert ParentAt(m, 1, 0);
  }

  /** Copying that process with 66 free pages fails and leaves 65. */
  lemma CopyLosesExample()
    ensures var c := CopyUvm(OneProcess(66), 1, 1, KernelMap(0x100)); c.CopyFailed? && OneShort(OneProcess(66), c.m)
  {
    hide *;
    OneProcessIs(66);
    KernelMapValid(0x100);
    KernelPagesAre(0x100);
    OnePageTooFew();
    CopyUvmCount(OneProcess(66), 1, 1, KernelMap(0x100));
  }

  lemma OnePageTooFew()
    ensures OneTooFew(1, 1)
  {
  }
}
