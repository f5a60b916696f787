/** Physical pages, the free list of kalloc.c and the two-level page tables of vm.c.  Frames are numbered;
    a page is 1024 words.
 */
module PageTable {

  const NENT := 1024
  const PGSIZE := 4096
  const KERNBASE := 0x8000_0000
  const KERNPAGE := 0x8_0000
  const NPAGES := 0x10_0000

  const PTE_P := 1
  const PTE_W := 2
  const PTE_U := 4

  type Page = seq<int>

  function ZeroPage(): (r: Page)
    ensures |r| == NENT
  {
    seq(NENT, _ => 0)
  }

  // ---- Table entries: a frame and twelve flag bits

  function Entry(frame: int, flags: int): int
  {
    frame * PGSIZE + flags
  }

  function Frame(w: int): int
  {
    w / PGSIZE
  }

  function Flags(w: int): int
  {
    w % PGSIZE
  }

  predicate Present(w: int)
  {
    w % 2 == 1
  }

  /** perm | PTE_P */
  function WithP(perm: int): int
  {
    if perm % 2 == 1 then perm else perm + 1
  }

  lemma EntryParts(frame: int, flags: int)
    requires 0 <= flags < PGSIZE
    ensures Frame(Entry(frame, flags)) == frame && Flags(Entry(frame, flags)) == flags
    ensures Present(Entry(frame, flags)) <==> flags % 2 == 1
  {
    Parity(frame, flags);
    hide Present;
  }

  lemma Parity(frame: int, flags: int)
    ensures Present(Entry(frame, flags)) <==> flags % 2 == 1
  {
    var h := frame * 2048;
    assert Entry(frame, flags) == 2 * h + flags;
  }

  lemma FlagsTellPresent(w: int)
    ensures Present(w) <==> Flags(w) % 2 == 1
    ensures 0 <= Flags(w) < PGSIZE
  {
    assert w == Entry(Frame(w), Flags(w));
    Parity(Frame(w), Flags(w));
    hide Present, Frame, Entry;
  }

  function Pdx(v: int): int
  {
    v / NENT
  }

  function Ptx(v: int): int
  {
    v % NENT
  }

  lemma PageNumber(v: int, u: int)
    requires 0 <= v < NPAGES && 0 <= u < NPAGES
    ensures 0 <= Pdx(v) < NENT && 0 <= Ptx(v) < NENT
    ensures Pdx(v) == Pdx(u) && Ptx(v) == Ptx(u) ==> v == u
  {
  }

  // ---- Memory

  /** `free` is the list of free frames, from the head; frames below lo are never handed out. */
  datatype Mem = Mem(lo: int, pages: seq<Page>, free: seq<int>)

  /** The kernel address of a frame, as stored in the links of the free list. */
  function Addr(frame: int): int
  {
    KERNBASE + frame * PGSIZE
  }

  function Link(free: seq<int>, k: int): int
  {
    if 0 <= k < |free| then Addr(free[k]) else 0
  }

  predicate PageAt(m: Mem, f: int)
  {
    0 <= f < |m.pages| ==> |m.pages[f]| == NENT
  }

  /** A free page is in range and its first word links to the next one. */
  predicate FreeAt(m: Mem, k: int)
  {
    0 <= k < |m.free| ==>
      && 0 <= m.lo <= m.free[k] < |m.pages|
      && |m.pages[m.free[k]]| == NENT && m.pages[m.free[k]][0] == Link(m.free, k + 1)
  }

  ghost predicate Shape(m: Mem)
  {
    && 0 < m.lo
    && (forall f {:trigger PageAt(m, f)} :: PageAt(m, f))
    && (forall k {:trigger FreeAt(m, k)} :: FreeAt(m, k))
    && forall i, j :: 0 <= i < j < |m.free| ==> m.free[i] != m.free[j]
  }

  function JunkPage(link: int): (r: Page)
    ensures |r| == NENT
  {
    seq(NENT, x => if x == 0 then link else 0x0101_0101)
  }

  /** kfree */
  function Kfree(m: Mem, f: int): Mem
    requires 0 <= f < |m.pages|
  {
    m.(pages := m.pages[f := JunkPage(Link(m.free, 0))], free := [f] + m.free)
  }

  /** A page that has been freed holds a link and bytes of 1, nothing of what it held; no other page changes. */
  lemma KfreeErases(m: Mem, f: int, x: int)
    requires 0 <= f < |m.pages|
    ensures var m' := Kfree(m, f);
      && |m'.pages| == |m.pages| && |m'.pages[f]| == NENT
      && (0 < x < NENT ==> m'.pages[f][x] == 1 + 0x100 + 0x1_0000 + 0x100_0000)
      && m'.pages[f][0] == (if m.free == [] then 0 else KERNBASE + m.free[0] * PGSIZE)
      && forall g :: 0 <= g < |m.pages| && g != f ==> m'.pages[g] == m.pages[g]
  {
  }

  /** kalloc followed by the caller's filling of the page. */
  function Take(m: Mem, content: Page): Mem
    requires m.free != [] && 0 <= m.free[0] < |m.pages|
  {
    m.(pages := m.pages[m.free[0] := content], free := m.free[1..])
  }

  lemma KfreeShape(m: Mem, f: int)
    requires Shape(m) && m.lo <= f < |m.pages| && f !in m.free
    ensures Shape(Kfree(m, f))
  {
    var m' := Kfree(m, f);
    forall g ensures PageAt(m', g) { assert PageAt(m, g); }
    forall k ensures FreeAt(m', k) { assert FreeAt(m, k - 1); }
  }

  lemma TakeShape(m: Mem, content: Page)
    requires Shape(m) && m.free != [] && 0 <= m.free[0] < |m.pages| && |content| == NENT
    ensures Shape(Take(m, content))
    ensures forall f :: f in m.free <==> f == m.free[0] || f in Take(m, content).free
    ensures m.free[0] !in Take(m, content).free
  {
    var m' := Take(m, content);
    forall g ensures PageAt(m', g) { assert PageAt(m, g); }
    forall k ensures FreeAt(m', k) { assert FreeAt(m, k + 1); }
    assert m.free == [m.free[0]] + m'.free;
  }

  // ---- An address space: the page directory in frame d

  function Word(m: Mem, f: int, x: int): int
  {
    if 0 <= f < |m.pages| && 0 <= x < |m.pages[f]| then m.pages[f][x] else 0
  }

  /** The frame of page table p; 0 for none. */
  function Table(m: Mem, d: int, p: int): int
  {
    if Present(Word(m, d, p)) then Frame(Word(m, d, p)) else 0
  }

  /** The table entry of page v; 0 if its table is missing. */
  function Pte(m: Mem, d: int, v: int): int
  {
    if 0 <= v < NPAGES && Table(m, d, Pdx(v)) != 0 then Word(m, Table(m, d, Pdx(v)), Ptx(v)) else 0
  }

  /** The frame of user page v; 0 for none. */
  function UserFrame(m: Mem, d: int, v: int): int
  {
    if v < KERNPAGE && Present(Pte(m, d, v)) then Frame(Pte(m, d, v)) else 0
  }

  /** What holds a frame of the address space: the directory, a table, a user page. */
  datatype Place = Directory | TableOf(p: int) | PageOf(v: int)

  function Ref(m: Mem, d: int, at: Place): int
  {
    match at
    case Directory => d
    case TableOf(p) => Table(m, d, p)
    case PageOf(v) => UserFrame(m, d, v)
  }

  predicate Mapped(m: Mem, d: int, at: Place)
  {
    match at
    case Directory => true
    case TableOf(p) => Present(Word(m, d, p))
    case PageOf(v) => v < KERNPAGE && Present(Pte(m, d, v))
  }

  predicate RefAt(m: Mem, d: int, at: Place)
  {
    Mapped(m, d, at) ==> m.lo <= Ref(m, d, at) < |m.pages| && Ref(m, d, at) !in m.free
  }

  predicate InjAt(m: Mem, d: int, at: Place, bt: Place)
  {
    Ref(m, d, at) != 0 && Ref(m, d, at) == Ref(m, d, bt) ==> at == bt
  }

  /** Every frame the address space maps is allocated, in range, and in one place only. */
  ghost predicate Space(m: Mem, d: int)
  {
    && Shape(m)
    && (forall at {:trigger RefAt(m, d, at)} :: RefAt(m, d, at))
    && (forall at, bt {:trigger InjAt(m, d, at, bt)} :: InjAt(m, d, at, bt))
  }

  ghost predicate Held(m: Mem, d: int, f: int)
  {
    exists at :: Ref(m, d, at) == f && f != 0
  }

  // ---- Changing one word

  function SetWord(m: Mem, f: int, x: int, w: int): Mem
    requires 0 <= f < |m.pages| && 0 <= x < |m.pages[f]|
  {
    m.(pages := m.pages[f := m.pages[f][x := w]])
  }

  lemma SetWordShape(m: Mem, f: int, x: int, w: int)
    requires Shape(m) && 0 <= f < |m.pages| && 0 <= x < |m.pages[f]| && f !in m.free
    ensures Shape(SetWord(m, f, x, w))
  {
    var m' := SetWord(m, f, x, w);
    forall g ensures PageAt(m', g) { assert PageAt(m, g); }
    forall k ensures FreeAt(m', k) { assert FreeAt(m, k); }
  }

  /** Filling a free page changes nothing the address space looks at. */
  lemma TakeRef(m: Mem, d: int, content: Page, v: int, at: Place)
    requires Space(m, d) && m.free != [] && 0 <= m.free[0] < |m.pages|
    ensures Pte(Take(m, content), d, v) == Pte(m, d, v)
    ensures Ref(Take(m, content), d, at) == Ref(m, d, at) && Mapped(Take(m, content), d, at) == Mapped(m, d, at)
  {
    hide Present, Frame, Pdx, Ptx;
    assert RefAt(m, d, Directory) && RefAt(m, d, TableOf(Pdx(v)));
    match at {
      case Directory =>
      case TableOf(p) => assert RefAt(m, d, TableOf(p));
      case PageOf(u) => assert RefAt(m, d, TableOf(Pdx(u)));
    }
  }

  lemma TakeSpace(m: Mem, d: int, content: Page)
    requires Space(m, d) && m.free != [] && 0 <= m.free[0] < |m.pages| && |content| == NENT
    ensures Space(Take(m, content), d)
  {
    var m' := Take(m, content);
    TakeShape(m, content);
    hide Ref, Mapped, Shape, Take;
    forall at ensures RefAt(m', d, at) { assert RefAt(m, d, at); TakeRef(m, d, content, 0, at); }
    forall at, bt ensures InjAt(m', d, at, bt) {
      assert InjAt(m, d, at, bt);
      TakeRef(m, d, content, 0, at);
      TakeRef(m, d, content, 0, bt);
    }
  }

  // ---- A new page table

  /** What walkpgdir does for a missing table p. */
  function NewTable(m: Mem, d: int, p: int): Mem
    requires m.free != [] && 0 <= m.free[0] < |m.pages| && 0 <= d < |m.pages| && 0 <= p < NENT
    requires d != m.free[0] && |m.pages[d]| == NENT
  {
    SetWord(Take(m, ZeroPage()), d, p, Entry(m.free[0], PTE_P + PTE_W + PTE_U))
  }

  ghost predicate CanAddTable(m: Mem, d: int, p: int)
  {
    && Space(m, d) && 0 <= p < NENT && Table(m, d, p) == 0 && m.free != []
    && 0 <= m.free[0] < |m.pages| && 0 <= d < |m.pages| && d != m.free[0] && |m.pages[d]| == NENT
  }

  lemma ReadyForTable(m: Mem, d: int, p: int)
    requires Space(m, d) && 0 <= p < NENT && Table(m, d, p) == 0 && m.free != []
    ensures CanAddTable(m, d, p)
  {
    assert RefAt(m, d, Directory) && PageAt(m, d) && FreeAt(m, 0);
  }

  lemma NewTableTable(m: Mem, d: int, p: int, q: int)
    requires CanAddTable(m, d, p)
    ensures Table(NewTable(m, d, p), d, q) == if q == p then m.free[0] else Table(m, d, q)
    ensures Present(Word(NewTable(m, d, p), d, q)) <==> q == p || Present(Word(m, d, q))
    ensures m.free[0] != 0
  {
    EntryParts(m.free[0], PTE_P + PTE_W + PTE_U);
    assert RefAt(m, d, Directory) && FreeAt(m, 0);
    hide Present, Frame, Entry;
  }

  lemma NewTablePte(m: Mem, d: int, p: int, v: int)
    requires CanAddTable(m, d, p)
    ensures Pte(NewTable(m, d, p), d, v) == Pte(m, d, v)
  {
    if 0 <= v < NPAGES {
      NewTableTable(m, d, p, Pdx(v));
      assert RefAt(m, d, TableOf(Pdx(v))) && InjAt(m, d, TableOf(Pdx(v)), Directory);
      hide Present, Frame, Entry, Table, Pdx, Ptx;
    }
  }

  lemma NewTableRef(m: Mem, d: int, p: int, at: Place)
    requires CanAddTable(m, d, p)
    ensures Ref(NewTable(m, d, p), d, at) == if at == TableOf(p) then m.free[0] else Ref(m, d, at)
    ensures Mapped(NewTable(m, d, p), d, at) <==> at == TableOf(p) || Mapped(m, d, at)
    ensures m.free[0] != 0
  {
    NewTableTable(m, d, p, if at.TableOf? then at.p else p);
    NewTablePte(m, d, p, if at.PageOf? then at.v else 0);
    hide NewTable, Table, Pte;
  }

  lemma NewTableSpace(m: Mem, d: int, p: int)
    requires CanAddTable(m, d, p)
    ensures Space(NewTable(m, d, p), d)
    ensures NewTable(m, d, p).free == m.free[1..]
  {
    var m' := NewTable(m, d, p);
    TakeShape(m, ZeroPage());
    assert RefAt(m, d, Directory);
    SetWordShape(Take(m, ZeroPage()), d, p, Entry(m.free[0], PTE_P + PTE_W + PTE_U));
    assert FreeAt(m, 0);
    hide Ref, Mapped, Shape;
    forall at ensures RefAt(m', d, at) { assert RefAt(m, d, at); NewTableRef(m, d, p, at); }
    forall at, bt ensures InjAt(m', d, at, bt) {
      assert InjAt(m, d, at, bt) && RefAt(m, d, at) && RefAt(m, d, bt);
      NewTableRef(m, d, p, at);
      NewTableRef(m, d, p, bt);
    }
  }

  // ---- Writing the entry of a page

  function SetPte(m: Mem, d: int, v: int, w: int): Mem
  {
    var f := Table(m, d, Pdx(v));
    if 0 <= f < |m.pages| && 0 <= Ptx(v) < |m.pages[f]| then SetWord(m, f, Ptx(v), w) else m
  }

  ghost predicate HasTable(m: Mem, d: int, v: int)
  {
    Space(m, d) && 0 <= v < NPAGES && Table(m, d, Pdx(v)) != 0
  }

  lemma SetPteTable(m: Mem, d: int, v: int, w: int, q: int)
    requires HasTable(m, d, v)
    ensures Table(SetPte(m, d, v, w), d, q) == Table(m, d, q) && Word(SetPte(m, d, v, w), d, q) == Word(m, d, q)
  {
    assert InjAt(m, d, TableOf(Pdx(v)), Directory);
    hide Present, Frame, Pdx, Ptx;
  }

  lemma SetPteIs(m: Mem, d: int, v: int, w: int, u: int)
    requires HasTable(m, d, v)
    ensures Pte(SetPte(m, d, v, w), d, u) == if u == v then w else Pte(m, d, u)
  {
    if 0 <= u < NPAGES {
      SetPteTable(m, d, v, w, Pdx(u));
      PageNumber(v, u);
      assert RefAt(m, d, TableOf(Pdx(v))) && PageAt(m, Table(m, d, Pdx(v))) && InjAt(m, d, TableOf(Pdx(v)), TableOf(Pdx(u)));
      hide Present, Frame, Pdx, Ptx, Table;
    }
  }

  lemma SetPteRef(m: Mem, d: int, v: int, w: int, at: Place)
    requires HasTable(m, d, v)
    ensures Ref(SetPte(m, d, v, w), d, at) ==
      if at == PageOf(v) && v < KERNPAGE then (if Present(w) then Frame(w) else 0) else Ref(m, d, at)
    ensures Mapped(SetPte(m, d, v, w), d, at) <==>
      if at == PageOf(v) && v < KERNPAGE then Present(w) else Mapped(m, d, at)
  {
    SetPteTable(m, d, v, w, if at.TableOf? then at.p else 0);
    SetPteIs(m, d, v, w, if at.PageOf? then at.v else v);
    hide SetPte, Table, Pte, Present, Frame;
  }

  /** Entry w of user page v is absent or maps a frame that is allocated and held nowhere. */
  ghost predicate Mappable(m: Mem, d: int, v: int, w: int)
  {
    v < KERNPAGE && Present(w) ==>
      && m.lo <= Frame(w) < |m.pages| && Frame(w) !in m.free
      && forall at {:trigger Ref(m, d, at)} :: Ref(m, d, at) != Frame(w)
  }

  lemma SetPteSpace(m: Mem, d: int, v: int, w: int)
    requires HasTable(m, d, v) && Mappable(m, d, v, w)
    ensures Space(SetPte(m, d, v, w), d)
    ensures SetPte(m, d, v, w).free == m.free
  {
    var m' := SetPte(m, d, v, w);
    assert RefAt(m, d, TableOf(Pdx(v))) && PageAt(m, Table(m, d, Pdx(v)));
    PageNumber(v, v);
    SetWordShape(m, Table(m, d, Pdx(v)), Ptx(v), w);
    hide Ref, Mapped, Shape, Present, Frame, Pdx, Ptx, Table;
    forall at ensures RefAt(m', d, at) { assert RefAt(m, d, at); SetPteRef(m, d, v, w, at); }
    forall at, bt ensures InjAt(m', d, at, bt) {
      assert InjAt(m, d, at, bt);
      SetPteRef(m, d, v, w, at);
      SetPteRef(m, d, v, w, bt);
    }
  }
}
