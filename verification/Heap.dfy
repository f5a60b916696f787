/** umalloc.c: the Kernighan and Ritchie allocator.  Addresses count header-sized units. */
module Heap {

  /** What the headers in memory say, and what they mean: the headers on the free list (with the
      static header `base`), the allocated blocks, and for every unit ever obtained from sbrk the
      block it belongs to.
   */
  datatype Image = Image(
    ptr: map<int, int>, size: map<int, int>,
    free: set<int>, live: set<int>, owner: map<int, int>, brk: int)

  /** c is the free header that follows b in address order, the lowest one if b is the highest. */
  ghost predicate Follows(free: set<int>, base: int, b: int, c: int)
  {
    && c in free
    && if b < c then forall d :: d in free ==> d <= b || c <= d
       else c == base && forall d :: d in free ==> d <= b
  }

  ghost predicate LinkedAt(m: Image, base: int, b: int)
  {
    b in m.free ==> base <= b && b in m.ptr && Follows(m.free, base, b, m.ptr[b])
  }

  /** The free list is one cycle in address order. */
  ghost predicate Linked(m: Image, base: int)
  {
    && base in m.free
    && (forall b {:trigger LinkedAt(m, base, b)} :: LinkedAt(m, base, b))
    && base in m.size && m.size[base] == 0
    && m.live !! m.free
  }

  ghost predicate IsBlock(m: Image, base: int, b: int)
  {
    b in m.live || (b in m.free && b != base)
  }

  /** A unit lies in the block that owns it. */
  ghost predicate UnitOk(m: Image, base: int, x: int)
  {
    x in m.owner ==>
      && IsBlock(m, base, m.owner[x])
      && m.owner[x] in m.size && m.owner[x] <= x < m.owner[x] + m.size[m.owner[x]]
      && base < x < m.brk
  }

  /** A block owns the units it spans. */
  ghost predicate BlockOk(m: Image, base: int, b: int)
  {
    IsBlock(m, base, b) ==>
      && b in m.size && 1 <= m.size[b]
      && forall x :: b <= x < b + m.size[b] ==> x in m.owner && m.owner[x] == b
  }

  /** Blocks tile what sbrk returned. */
  ghost predicate Tiled(m: Image, base: int)
  {
    && base < m.brk
    && (forall x {:trigger UnitOk(m, base, x)} :: UnitOk(m, base, x))
    && (forall b {:trigger BlockOk(m, base, b)} :: BlockOk(m, base, b))
  }

  ghost predicate ApartAt(m: Image, base: int, b: int, c: int)
  {
    b in m.free && c in m.free && base != b < c ==> b in m.size && b + m.size[b] < c
  }

  /** No two free blocks touch. */
  ghost predicate Apart(m: Image, base: int)
  {
    forall b, c {:trigger ApartAt(m, base, b, c)} :: ApartAt(m, base, b, c)
  }

  ghost predicate Ok(m: Image, base: int)
  {
    Linked(m, base) && Tiled(m, base) && Apart(m, base)
  }

  // ---- Steps on images

  /** Enter a live block into the list after p. */
  function Link(m: Image, p: int, bp: int): Image
    requires p in m.ptr
  {
    m.(ptr := m.ptr[bp := m.ptr[p]][p := bp], free := m.free + {bp}, live := m.live - {bp})
  }

  /** Let free block b swallow its successor c. */
  ghost function Merge(m: Image, b: int, c: int): Image
    requires b in m.size && c in m.size && c in m.ptr
  {
    m.(ptr := m.ptr[b := m.ptr[c]],
       size := m.size[b := m.size[b] + m.size[c]],
       free := m.free - {c},
       owner := map x | x in m.owner :: if m.owner[x] == c then b else m.owner[x])
  }

  /** Take b, the successor of a, off the list. */
  function Unlink(m: Image, a: int, b: int): Image
    requires b in m.ptr
  {
    m.(ptr := m.ptr[a := m.ptr[b]], free := m.free - {b}, live := m.live + {b})
  }

  /** Cut n units off the upper end of block b. */
  ghost function Split(m: Image, b: int, n: int): Image
    requires b in m.size
  {
    var q := b + m.size[b] - n;
    m.(size := m.size[b := m.size[b] - n][q := n],
       live := m.live + {q},
       owner := map x | x in m.owner :: if q <= x < q + n then q else m.owner[x])
  }

  /** sbrk returned n fresh units at a, which become one live block. */
  ghost function Grow(m: Image, a: int, n: nat): Image
  {
    m.(size := m.size[a := n],
       live := m.live + {a},
       owner := m.owner + Fresh(a, n),
       brk := a + n)
  }

  ghost function Fresh(a: int, n: nat): (f: map<int, int>)
    ensures forall x :: x in f <==> a <= x < a + n
    ensures forall x :: x in f ==> f[x] == a
  {
    if n == 0 then map[] else Fresh(a, n - 1)[a + n - 1 := a]
  }

  // ---- The list

  lemma LinkLinks(m: Image, base: int, p: int, bp: int)
    requires Linked(m, base) && p in m.ptr
    requires bp in m.live && p in m.free && p < bp
    requires forall d :: d in m.free ==> d <= p || bp < d
    ensures Linked(Link(m, p, bp), base)
  {
    var m' := Link(m, p, bp);
    assert LinkedAt(m, base, p);
    forall b ensures LinkedAt(m', base, b) {
      assert LinkedAt(m, base, b);
    }
  }

  /** Taking b, which follows a, off the list. */
  lemma UnlinkLinks(m: Image, base: int, a: int, b: int)
    requires Linked(m, base)
    requires a in m.free && a in m.ptr && m.ptr[a] == b && base != b
    ensures b in m.free && b in m.ptr && Linked(Unlink(m, a, b), base)
  {
    assert LinkedAt(m, base, a) && LinkedAt(m, base, b);
    var m' := Unlink(m, a, b);
    forall x ensures LinkedAt(m', base, x) {
      assert LinkedAt(m, base, x);
    }
  }

  // ---- The tiling

  /** The tiling depends on which headers are blocks, not on which list they are in. */
  lemma SameBlocksTiled(m: Image, m': Image, base: int)
    requires Tiled(m, base)
    requires m'.size == m.size && m'.owner == m.owner && m'.brk == m.brk
    requires forall b :: IsBlock(m', base, b) <==> IsBlock(m, base, b)
    ensures Tiled(m', base)
  {
    forall x ensures UnitOk(m', base, x) {
      assert UnitOk(m, base, x);
    }
    forall b ensures BlockOk(m', base, b) {
      assert BlockOk(m, base, b);
    }
  }

  lemma LinkKeeps(m: Image, base: int, p: int, bp: int)
    requires Linked(m, base) && Tiled(m, base) && p in m.ptr
    requires bp in m.live && p in m.free && p < bp
    requires forall d :: d in m.free ==> d <= p || bp < d
    ensures Linked(Link(m, p, bp), base) && Tiled(Link(m, p, bp), base)
  {
    LinkLinks(m, base, p, bp);
    assert LinkedAt(m, base, p);
    SameBlocksTiled(m, Link(m, p, bp), base);
  }

  lemma UnlinkKeeps(m: Image, base: int, a: int, b: int)
    requires Ok(m, base)
    requires a in m.free && a in m.ptr && m.ptr[a] == b && base != b
    ensures b in m.free && b in m.ptr && Ok(Unlink(m, a, b), base)
  {
    UnlinkLinks(m, base, a, b);
    var m' := Unlink(m, a, b);
    SameBlocksTiled(m, m', base);
    forall x, y ensures ApartAt(m', base, x, y) {
      assert ApartAt(m, base, x, y);
    }
  }

  lemma MergeLinks(m: Image, base: int, b: int, c: int)
    requires Linked(m, base)
    requires b in m.free && b in m.size && c in m.size
    requires base != b && b in m.ptr && m.ptr[b] == c && base != c
    ensures c in m.ptr && Linked(Merge(m, b, c), base)
  {
    UnlinkLinks(m, base, b, c);
    var u := Unlink(m, b, c);
    var m' := Merge(m, b, c);
    forall x ensures LinkedAt(m', base, x) {
      assert LinkedAt(u, base, x);
    }
  }

  lemma MergeTiles(m: Image, base: int, b: int, c: int)
    requires Tiled(m, base) && m.live !! m.free
    requires b in m.free && c in m.free && base != b && base != c && c in m.ptr
    requires b in m.size && b + m.size[b] == c && c in m.size
    ensures Tiled(Merge(m, b, c), base)
  {
    var m' := Merge(m, b, c);
    assert BlockOk(m, base, b) && BlockOk(m, base, c);
    forall x ensures UnitOk(m', base, x) {
      assert UnitOk(m, base, x);
    }
    forall d ensures BlockOk(m', base, d) {
      assert BlockOk(m, base, d);
    }
  }

  lemma MergeKeeps(m: Image, base: int, b: int, c: int)
    requires Linked(m, base) && Tiled(m, base)
    requires b in m.free && base != b && b in m.ptr && m.ptr[b] == c
    requires b in m.size && b + m.size[b] == c
    ensures c in m.free && c in m.size && c in m.ptr
    ensures Linked(Merge(m, b, c), base) && Tiled(Merge(m, b, c), base)
  {
    assert LinkedAt(m, base, b) && LinkedAt(m, base, c);
    assert BlockOk(m, base, b) && BlockOk(m, base, c);
    MergeLinks(m, base, b, c);
    MergeTiles(m, base, b, c);
  }

  lemma SplitTiles(m: Image, base: int, b: int, n: int)
    requires Tiled(m, base)
    requires b in m.free && base != b && b in m.size && 1 <= n < m.size[b]
    ensures Tiled(Split(m, b, n), base)
    ensures var q := b + m.size[b] - n; !IsBlock(m, base, q) && base < q
  {
    var m' := Split(m, b, n);
    var q := b + m.size[b] - n;
    assert BlockOk(m, base, b) && BlockOk(m, base, q) && UnitOk(m, base, q);
    forall x ensures UnitOk(m', base, x) {
      assert UnitOk(m, base, x);
    }
    forall d ensures BlockOk(m', base, d) {
      assert BlockOk(m, base, d);
      assert UnitOk(m, base, d);
    }
  }

  lemma SplitKeeps(m: Image, base: int, b: int, n: int)
    requires Ok(m, base)
    requires b in m.free && base != b && b in m.size && 1 <= n < m.size[b]
    ensures Ok(Split(m, b, n), base)
  {
    SplitTiles(m, base, b, n);
    var m' := Split(m, b, n);
    assert LinkedAt(m, base, b);
    forall x ensures LinkedAt(m', base, x) {
      assert LinkedAt(m, base, x);
    }
    forall x, y ensures ApartAt(m', base, x, y) {
      assert ApartAt(m, base, x, y);
    }
  }

  lemma GrowTiles(m: Image, base: int, a: int, n: nat)
    requires Tiled(m, base) && m.brk <= a && 1 <= n
    ensures Tiled(Grow(m, a, n), base)
    ensures !IsBlock(m, base, a)
  {
    var m' := Grow(m, a, n);
    assert BlockOk(m, base, a) && UnitOk(m, base, a);
    forall x ensures UnitOk(m', base, x) {
      assert UnitOk(m, base, x);
    }
    forall d ensures BlockOk(m', base, d) {
      assert BlockOk(m, base, d);
      assert forall x :: x in m.owner ==> UnitOk(m, base, x);
    }
  }

  lemma GrowKeeps(m: Image, base: int, a: int, n: nat)
    requires Ok(m, base) && m.brk <= a && 1 <= n
    ensures Ok(Grow(m, a, n), base)
  {
    var m' := Grow(m, a, n);
    GrowTiles(m, base, a, n);
    assert a !in m.free;
    forall x ensures LinkedAt(m', base, x) {
      assert LinkedAt(m, base, x);
    }
    forall x, y ensures ApartAt(m', base, x, y) {
      assert ApartAt(m, base, x, y);
    }
  }

  // ---- free

  ghost predicate HeadersRead(m: Image, p: int, bp: int)
  {
    && p in m.ptr && p in m.size && bp in m.size
    && m.ptr[p] in m.ptr && m.ptr[p] in m.size
  }

  /** free(bp): p is the highest free header below bp. */
  ghost function Freed(m: Image, p: int, bp: int): Image
    requires HeadersRead(m, p, bp)
  {
    var next := m.ptr[p];
    var linked := Link(m, p, bp);
    var up := if bp + m.size[bp] == next then Merge(linked, bp, next) else linked;
    if p + m.size[p] == bp then Merge(up, p, bp) else up
  }

  ghost predicate IsSlot(m: Image, p: int, bp: int)
  {
    p in m.free && p < bp && forall d :: d in m.free ==> d <= p || bp < d
  }

  /** Distinct blocks do not overlap. */
  lemma Disjoint(m: Image, base: int, b: int, c: int)
    requires Tiled(m, base) && IsBlock(m, base, b) && IsBlock(m, base, c) && b < c
    ensures b in m.size && b + m.size[b] <= c
  {
    assert BlockOk(m, base, b) && BlockOk(m, base, c);
    assert c in m.owner && m.owner[c] == c;
  }

  /** A free list entry of m next to the freed block: the gaps that remain are real gaps. */
  lemma FreedApart(m: Image, base: int, p: int, bp: int, b: int, c: int)
    requires Ok(m, base) && bp in m.live && IsSlot(m, p, bp) && HeadersRead(m, p, bp)
    ensures ApartAt(Freed(m, p, bp), base, b, c)
  {
    var next := m.ptr[p];
    var m' := Freed(m, p, bp);
    assert LinkedAt(m, base, p) && LinkedAt(m, base, c) && LinkedAt(m, base, b);
    assert ApartAt(m, base, b, c) && ApartAt(m, base, b, p) && ApartAt(m, base, next, c) && ApartAt(m, base, p, c);
    if b in m'.free && c in m'.free && base != b < c {
      if c == bp {
        assert b in m.free && b <= p;
        Disjoint(m, base, b, bp);
      } else if b == bp || b == p {
        assert c in m.free && next <= c;
        Disjoint(m, base, bp, next);
      }
    }
  }

  lemma FreeKeeps(m: Image, base: int, p: int, bp: int)
    requires Ok(m, base) && bp in m.live && IsSlot(m, p, bp)
    ensures HeadersRead(m, p, bp)
    ensures Ok(Freed(m, p, bp), base)
    ensures Freed(m, p, bp).owner.Keys == m.owner.Keys && p in Freed(m, p, bp).free
  {
    assert LinkedAt(m, base, p) && BlockOk(m, base, p) && BlockOk(m, base, bp);
    var next := m.ptr[p];
    assert LinkedAt(m, base, next) && BlockOk(m, base, next);
    LinkKeeps(m, base, p, bp);
    var l := Link(m, p, bp);
    var up := l;
    if bp + m.size[bp] == next {
      MergeKeeps(l, base, bp, next);
      up := Merge(l, bp, next);
    }
    if p + m.size[p] == bp {
      MergeKeeps(up, base, p, bp);
    }
    forall b, c ensures ApartAt(Freed(m, p, bp), base, b, c) {
      FreedApart(m, base, p, bp, b, c);
    }
  }

  /** The header words that free writes. */
  function FreedSize(m: Image, p: int, bp: int): map<int, int>
    requires p in m.ptr && p in m.size && bp in m.size && m.ptr[p] in m.size
  {
    var size := if bp + m.size[bp] == m.ptr[p] then m.size[bp := m.size[bp] + m.size[m.ptr[p]]] else m.size;
    if p + size[p] == bp then size[p := size[p] + size[bp]] else size
  }

  function FreedPtr(m: Image, p: int, bp: int): map<int, int>
    requires p in m.ptr && p in m.size && bp in m.size && m.ptr[p] in m.ptr
  {
    var ptr := m.ptr[bp := if bp + m.size[bp] == m.ptr[p] then m.ptr[m.ptr[p]] else m.ptr[p]];
    ptr[p := if p + m.size[p] == bp then ptr[bp] else bp]
  }

  lemma FreedHeaders(m: Image, p: int, bp: int)
    requires HeadersRead(m, p, bp) && p < bp && 1 <= m.size[bp]
    ensures Freed(m, p, bp).size == FreedSize(m, p, bp)
    ensures Freed(m, p, bp).ptr == FreedPtr(m, p, bp)
  {
    var next := m.ptr[p];
    var linked := Link(m, p, bp);
    var up := if bp + m.size[bp] == next then Merge(linked, bp, next) else linked;
    assert up.ptr == m.ptr[p := bp][bp := if bp + m.size[bp] == next then m.ptr[next] else next];
  }

  /** free gives back exactly the units of bp: every other live block keeps its place. */
  lemma FreeFrees(m: Image, base: int, p: int, bp: int)
    requires Ok(m, base) && bp in m.live && IsSlot(m, p, bp) && HeadersRead(m, p, bp)
    ensures var m' := Freed(m, p, bp);
      && m'.live == m.live - {bp}
      && m'.brk == m.brk
      && forall d :: d in m'.live ==> d in m'.size && m'.size[d] == m.size[d]
  {
    var m' := Freed(m, p, bp);
    forall d | d in m'.live ensures d in m'.size && m'.size[d] == m.size[d] {
      assert BlockOk(m, base, d) && LinkedAt(m, base, p);
    }
  }

  // ---- Walking the list

  /** Free headers that a walk visits from p up to and including `stop`. */
  ghost function Ahead(free: set<int>, p: int, stop: int): set<int>
  {
    if p <= stop then set d | d in free && p <= d <= stop
    else set d | d in free && (p <= d || d <= stop)
  }

  /** Each step of a walk leaves exactly the header just visited behind. */
  lemma AheadStep(m: Image, base: int, p: int, stop: int)
    requires Linked(m, base) && p in m.free && stop in m.free && p != stop && p in m.ptr
    ensures m.ptr[p] in m.free
    ensures Ahead(m.free, m.ptr[p], stop) == Ahead(m.free, p, stop) - {p}
  {
    assert LinkedAt(m, base, p);
    forall d | d in m.free ensures base <= d {
      assert LinkedAt(m, base, d);
    }
  }

  /** A walk that starts behind `stop` visits the whole list. */
  lemma AheadAll(m: Image, base: int, stop: int)
    requires Linked(m, base) && stop in m.free && stop in m.ptr
    ensures m.ptr[stop] in m.free
    ensures Ahead(m.free, m.ptr[stop], stop) == m.free
  {
    assert LinkedAt(m, base, stop);
    forall d | d in m.free ensures base <= d {
      assert LinkedAt(m, base, d);
    }
  }

  /** Following the links n times. */
  ghost function Walk(m: Image, p: int, n: nat): int
  {
    if n == 0 then p
    else var q := Walk(m, p, n - 1); if q in m.ptr then m.ptr[q] else q
  }

  ghost predicate Visited(m: Image, start: int, n: nat, d: int)
  {
    exists k :: 1 <= k < n && Walk(m, start, k) == d
  }

  /** The free list is one cycle: from any header, |free| steps visit all of them and return. */
  lemma {:induction false} OneCycle(m: Image, base: int, start: int, n: nat)
    requires Linked(m, base) && start in m.free && 1 <= n <= |m.free|
    ensures Walk(m, start, n) in m.free
    ensures |Ahead(m.free, Walk(m, start, n), start)| == |m.free| - n + 1
    ensures n == |m.free| ==> Walk(m, start, n) == start
    ensures forall d :: d in m.free ==> d in Ahead(m.free, Walk(m, start, n), start) || Visited(m, start, n, d)
  {
    if n == 1 {
      assert LinkedAt(m, base, start);
      assert Walk(m, start, 0) == start;
      AheadAll(m, base, start);
    } else {
      OneCycle(m, base, start, n - 1);
      var q := Walk(m, start, n - 1);
      var before := Ahead(m.free, q, start);
      assert LinkedAt(m, base, q);
      assert Ahead(m.free, start, start) == {start};
      assert q != start;
      AheadStep(m, base, q, start);
      var now := Ahead(m.free, Walk(m, start, n), start);
      assert q in before && now == before - {q};
      forall d | d in m.free
        ensures d in now || Visited(m, start, n, d)
      {
        if d !in before {
          assert Visited(m, start, n - 1, d);
        } else if d !in now {
          assert Walk(m, start, n - 1) == d;
        }
      }
    }
    if n == |m.free| {
      var w := Walk(m, start, n);
      var last := Ahead(m.free, w, start);
      assert w in last && start in last && |last| == 1;
      if w != start {
        assert {w, start} <= last;
        assert |{w, start}| == 2;
        SubsetSize({w, start}, last);
      }
    }
  }

  lemma SubsetSize(a: set<int>, b: set<int>)
    requires a <= b
    ensures |a| <= |b|
  {
    assert b == a + (b - a);
    assert |b| == |a| + |b - a|;
  }

  // ---- malloc

  const UINT := 0x1_0000_0000
  const HEADER := 8

  /** Header units for a request of nbytes, in 32-bit unsigned arithmetic. */
  function NUnits(nbytes: nat): (n: nat)
    ensures 1 <= n
  {
    (nbytes + HEADER - 1) % UINT / HEADER + 1
  }

  /** The addition wraps for the seven largest requests; all others get the least number of units that hold the
      header and the request. */
  lemma RequestFits(nbytes: nat)
    requires nbytes < UINT
    ensures (NUnits(nbytes) - 1) * HEADER >= nbytes <==> nbytes <= UINT - HEADER
    ensures nbytes <= UINT - HEADER ==> forall n :: n * HEADER >= HEADER + nbytes <==> n >= NUnits(nbytes)
  {
  }

  /** sbrk is asked for a positive number of bytes. */
  predicate SbrkPositive(nunits: nat)
  {
    0 < CoreUnits(nunits) * HEADER < UINT / 2
  }

  /** morecore asks for what is needed, and for at least 4096 units. */
  function CoreUnits(nunits: nat): (r: nat)
    ensures nunits <= r && 4096 <= r && (r == nunits || r == 4096)
  {
    if nunits < 4096 then 4096 else nunits
  }

  ghost function Allocated(m: Image, prevp: int, p: int, n: nat): Image
    requires p in m.ptr && p in m.size
  {
    if m.size[p] == n then Unlink(m, prevp, p) else Split(m, p, n)
  }

  function Chosen(m: Image, p: int, n: nat): int
    requires p in m.size
  {
    p + m.size[p] - n
  }

  /** Some free block fits. */
  ghost predicate Fits(m: Image, n: nat)
  {
    exists d :: d in m.free && d in m.size && m.size[d] >= n
  }

  lemma AllocKeeps(m: Image, base: int, prevp: int, p: int, n: nat)
    requires Ok(m, base) && 1 <= n
    requires prevp in m.free && prevp in m.ptr && m.ptr[prevp] == p
    requires p in m.size && n <= m.size[p]
    ensures p in m.ptr && Ok(Allocated(m, prevp, p, n), base)
    ensures var m' := Allocated(m, prevp, p, n); var q := Chosen(m, p, n);
      && q !in m.live && m'.live == m.live + {q}
      && q in m'.size && m'.size[q] == n
      && m'.owner.Keys == m.owner.Keys && m'.brk == m.brk
      && prevp in m'.free
      && forall d :: d in m.live ==> d in m'.size && d in m.size && m'.size[d] == m.size[d]
  {
    assert LinkedAt(m, base, prevp) && LinkedAt(m, base, p);
    var q := Chosen(m, p, n);
    if m.size[p] == n {
      UnlinkKeeps(m, base, prevp, p);
    } else {
      SplitKeeps(m, base, p, n);
      SplitTiles(m, base, p, n);
    }
    forall d | d in m.live ensures d in m.size {
      assert BlockOk(m, base, d);
    }
  }

  lemma LiveHaveSize(m: Image, base: int)
    requires Ok(m, base)
    ensures forall d :: d in m.live ==> d in m.size
  {
    forall d | d in m.live ensures d in m.size {
      assert BlockOk(m, base, d);
    }
  }

  datatype Option<T> = None | Some(value: T)

  class Allocator {
    const base: int
    var ptr: map<int, int>
    var size: map<int, int>
    /** None stands for the null freep before the first malloc. */
    var freep: Option<int>
    ghost var free: set<int>
    ghost var live: set<int>
    ghost var owner: map<int, int>
    ghost var brk: int

    ghost function Img(): Image
      reads this
    {
      Image(ptr, size, free, live, owner, brk)
    }

    ghost predicate Valid()
      reads this
    {
      && base < brk
      && if freep == None then live == {} && owner == map[] && free == {}
         else Ok(Img(), base) && freep.value in free
    }

    constructor (base: int, brk: int)
      requires base < brk
      ensures Valid() && this.base == base && this.brk == brk && live == {} && owner == map[]
    {
      this.base, this.brk := base, brk;
      ptr, size, freep := map[], map[], None;
      free, live, owner := {}, {}, map[];
    }

    /** free(): p, the new freep, is where the block goes. */
    method Free(ap: int)
      requires Valid() && ap - 1 in live
      modifies this
      ensures Valid() && freep.Some?
      ensures var m := old(Img()); var p := freep.value;
        && IsSlot(m, p, ap - 1) && HeadersRead(m, p, ap - 1)
        && Img() == Freed(m, p, ap - 1)
      ensures live == old(live) - {ap - 1}
      ensures owner.Keys == old(owner.Keys) && brk == old(brk)
      ensures forall d :: d in live ==> d in size && d in old(size) && size[d] == old(size)[d]
    {
      ghost var m := Img();
      var bp := ap - 1;
      var p := FindSlot(bp);
      FreeKeeps(m, base, p, bp);
      FreeFrees(m, base, p, bp);
      LiveHaveSize(m, base);
      assert LinkedAt(m, base, p) && BlockOk(m, base, bp);
      FreedHeaders(m, p, bp);
      hide Ok, IsSlot, Freed, IsBlock;
      Join(p, bp);
      ghost var m' := Freed(m, p, bp);
      freep := Some(p);
      free, live, owner := m'.free, m'.live, m'.owner;
    }

    /** Link bp behind p, joining it with the blocks it touches. */
    method Join(p: int, bp: int)
      requires HeadersRead(Img(), p, bp) && p < bp
      modifies this`ptr, this`size
      ensures size == FreedSize(old(Img()), p, bp)
      ensures ptr == FreedPtr(old(Img()), p, bp)
    {
      var next := ptr[p];
      if bp + size[bp] == next {
        size := size[bp := size[bp] + size[next]];
        ptr := ptr[bp := ptr[next]];
      } else {
        ptr := ptr[bp := next];
      }
      if p + size[p] == bp {
        size := size[p := size[p] + size[bp]];
        ptr := ptr[p := ptr[bp]];
      } else {
        ptr := ptr[p := bp];
      }
    }

    /** The search loop of free. */
    method FindSlot(bp: int) returns (p: int)
      requires Valid() && bp in live
      ensures IsSlot(Img(), p, bp)
    {
      ghost var m := Img();
      p := freep.value;
      assert LinkedAt(m, base, p) && BlockOk(m, base, bp) && UnitOk(m, base, bp);
      while !(bp > p && bp < ptr[p])
        invariant p in free && p in ptr && LinkedAt(m, base, p)
        decreases if p < bp then set d | d in free && p < d < bp else free + {bp},
                  if p < bp then {} else set d | d in free && d > p
      {
        if p >= ptr[p] && (bp > p || bp < ptr[p]) {
          break;
        }
        ghost var q := ptr[p];
        assert LinkedAt(m, base, q);
        assert q in free && q != bp;
        if p < bp {
          assert q in (set d | d in free && p < d < bp);
        } else if q < bp {
          assert bp in free + {bp} && bp !in (set d | d in free && q < d < bp);
        } else {
          assert q in (set d | d in free && d > p);
        }
        p := ptr[p];
      }
    }

    /** morecore: `core` is what sbrk answers, None for failure.  A fresh region becomes one more
        free block or the tail of the highest one.
     */
    method MoreCore(nunits: nat, core: Option<int>) returns (ok: bool)
      requires Valid() && freep.Some? && SbrkPositive(nunits)
      requires core.Some? ==> brk <= core.value
      modifies this
      ensures Valid() && freep.Some?
      ensures ok <==> core.Some?
      ensures !ok ==> Img() == old(Img()) && freep == old(freep)
      ensures ok ==> Fits(Img(), nunits)
      ensures ok ==> owner.Keys == old(owner.Keys) + Fresh(core.value, CoreUnits(nunits)).Keys
      ensures KeepsLive(old(Img()), Img())
    {
      LiveHaveSize(Img(), base);
      var nu := nunits;
      if nu < 4096 {
        nu := 4096;
      }
      if core == None {
        return false;
      }
      var hp := core.value;
      ghost var m := Img();
      GrowKeeps(m, base, hp, nu);
      GrowTiles(m, base, hp, nu);
      ghost var g := Grow(m, hp, nu);
      size := size[hp := nu];
      live, owner, brk := g.live, g.owner, g.brk;
      Free(hp + 1);
      FreedFits(g, base, freep.value, hp);
      ok := true;
    }

    /** Allocate nunits from p, the entry behind prevp. */
    method Take(prevp: int, p: int, nunits: nat) returns (q: int)
      requires Valid() && 1 <= nunits
      requires prevp in free && prevp in ptr && ptr[prevp] == p && p in ptr && p in size && nunits <= size[p]
      modifies this
      ensures Valid() && freep == Some(prevp)
      ensures Img() == Allocated(old(Img()), prevp, p, nunits)
      ensures q == Chosen(old(Img()), p, nunits)
    {
      ghost var m := Img();
      AllocKeeps(m, base, prevp, p, nunits);
      ghost var m' := Allocated(m, prevp, p, nunits);
      hide Ok;
      q := p;
      if size[p] == nunits {
        ptr := ptr[prevp := ptr[p]];
      } else {
        size := size[p := size[p] - nunits];
        q := q + size[p];
        size := size[q := nunits];
      }
      freep := Some(prevp);
      free, live, owner := m'.free, m'.live, m'.owner;
    }

    /** The first malloc makes a list of the empty static header. */
    method Start()
      requires Valid()
      modifies this`freep, this`ptr, this`size, this`free
      ensures Valid() && freep.Some?
      ensures old(freep).Some? ==> Img() == old(Img()) && freep == old(freep)
      ensures old(freep) == None ==> free == {base} && size == old(size)[base := 0]
      ensures owner == old(owner) && live == old(live) && brk == old(brk)
    {
      if freep == None {
        freep := Some(base);
        ptr, size, free := ptr[base := base], size[base := 0], {base};
        EmptyOk(Img(), base);
      }
    }

    /** Take, with what it means for the caller. */
    method Carve(prevp: int, p: int, nunits: nat) returns (q: int)
      requires Valid() && 1 <= nunits
      requires prevp in free && prevp in ptr && ptr[prevp] == p && p in ptr && p in size && nunits <= size[p]
      modifies this
      ensures Valid() && freep == Some(prevp) && AllocatedFrom(old(Img()), Img(), base, prevp, nunits, q)
    {
      AllocKeeps(Img(), base, prevp, p, nunits);
      assert LinkedAt(Img(), base, prevp) && LinkedAt(Img(), base, p);
      q := Take(prevp, p, nunits);
    }

    /** malloc.  `grown` tells whether morecore was called; it is, once, exactly if no free block
        fits.  `pool` is the heap at the moment of allocation; the block comes from the entry
        behind freep, which is the first one that fits in ring order from the old freep on.  With
        `shrinks` the call stops where sbrk would be given a number that is not positive as an int,
        and would take memory away.
     */
    method Malloc(nbytes: nat, core: Option<int>) returns (ap: Option<int>, grown: bool, shrinks: bool, ghost pool: Image)
      requires Valid() && nbytes < UINT
      requires core.Some? ==> brk <= core.value
      modifies this
      ensures Valid() && freep.Some?
      ensures grown <==> !Fits(old(Img()), NUnits(nbytes))
      ensures shrinks <==> grown && !SbrkPositive(NUnits(nbytes))
      ensures ap == None <==> grown && (core == None || shrinks)
      ensures KeepsLive(old(Img()), pool)
      ensures pool.owner.Keys == old(owner.Keys)
        + if grown && core.Some? && !shrinks then Fresh(core.value, CoreUnits(NUnits(nbytes))).Keys else {}
      ensures ap == None ==> Img() == pool
      ensures ap.Some? ==> AllocatedFrom(pool, Img(), base, freep.value, NUnits(nbytes), ap.value - 1)
      ensures !grown && old(freep).Some? ==>
        pool == old(Img()) && NextFit(pool, old(freep).value, freep.value, NUnits(nbytes))
    {
      hide Ok, Ahead, Fresh, AllocatedFrom;
      var nunits := NUnits(nbytes);
      grown, shrinks := false, false;
      Start();
      StartFits(old(Img()), Img(), base, nunits);
      ghost var m0 := Img();
      LiveHaveSize(m0, base);
      var prevp := freep.value;
      ghost var start := freep.value;
      ScanStart(m0, base, prevp, nunits);
      var p := ptr[prevp];
      while true
        invariant Valid() && freep.Some? && Scanning(Img(), base, freep.value, prevp, p, nunits)
        invariant KeepsLive(old(Img()), Img())
        invariant !grown ==> Img() == m0 && freep.value == start
        invariant grown ==> core.Some? && Fits(Img(), nunits) && !Fits(old(Img()), nunits) && SbrkPositive(nunits)
        invariant !shrinks
        invariant owner.Keys == old(owner.Keys)
          + if grown then Fresh(core.value, CoreUnits(nunits)).Keys else {}
        decreases !grown, |Ahead(free, p, freep.value)|
      {
        if size[p] >= nunits {
          pool := Img();
          var q := Carve(prevp, p, nunits);
          ap := Some(q + 1);
          return;
        }
        if p == freep.value {
          ScanEnd(Img(), base, freep.value, prevp, p, nunits);
          if !SbrkPositive(nunits) {
            return None, true, true, Img();
          }
          var ok := MoreCore(nunits, core);
          grown := true;
          if !ok {
            return None, true, false, Img();
          }
          prevp := freep.value;
          ScanStart(Img(), base, prevp, nunits);
          p := ptr[prevp];
        } else {
          ScanNext(Img(), base, freep.value, prevp, p, nunits);
          prevp := p;
          p := ptr[p];
        }
      }
    }
  }

  ghost predicate KeepsLive(m: Image, m': Image)
  {
    m'.live == m.live && forall d :: d in m.live ==> d in m.size && d in m'.size && m'.size[d] == m.size[d]
  }

  /** m' is m with the block q of n units allocated from the entry behind prevp. */
  ghost predicate AllocatedFrom(m: Image, m': Image, base: int, prevp: int, n: nat, q: int)
  {
    && prevp in m.free && prevp in m.ptr && m.ptr[prevp] in m.ptr && m.ptr[prevp] in m.size
    && var p := m.ptr[prevp];
    && p in m.free && base != p
    && n <= m.size[p]
    && q == Chosen(m, p, n)
    && m' == Allocated(m, prevp, p, n)
    && q !in m.live && m'.live == m.live + {q}
    && q in m'.size && m'.size[q] == n
    && m'.owner.Keys == m.owner.Keys
    && forall d :: d in m.live ==> d in m'.size && d in m.size && m'.size[d] == m.size[d]
  }

  // ---- The search loop of malloc

  /** No free block in ring order between start and the one behind prevp has n units. */
  ghost predicate NextFit(m: Image, start: int, prevp: int, n: nat)
  {
    && prevp in m.ptr
    && forall d :: d in m.free && d !in Ahead(m.free, m.ptr[prevp], start) ==> d in m.size && m.size[d] < n
  }

  /** Everything between freep and p is too small. */
  ghost predicate Scanning(m: Image, base: int, freep: int, prevp: int, p: int, n: nat)
  {
    && Ok(m, base)
    && freep in m.free && prevp in m.free && prevp in m.ptr && m.ptr[prevp] == p
    && p in m.free && p in m.ptr && p in m.size
    && p in Ahead(m.free, p, freep)
    && forall d :: d in m.free && d !in Ahead(m.free, p, freep) ==> d in m.size && m.size[d] < n
  }

  lemma ScanStart(m: Image, base: int, freep: int, n: nat)
    requires Ok(m, base) && freep in m.free
    ensures freep in m.ptr && Scanning(m, base, freep, freep, m.ptr[freep], n)
  {
    assert LinkedAt(m, base, freep);
    AheadAll(m, base, freep);
    var p := m.ptr[freep];
    assert LinkedAt(m, base, p) && BlockOk(m, base, p);
  }

  lemma ScanNext(m: Image, base: int, freep: int, prevp: int, p: int, n: nat)
    requires Scanning(m, base, freep, prevp, p, n) && m.size[p] < n && p != freep
    ensures Scanning(m, base, freep, p, m.ptr[p], n)
    ensures |Ahead(m.free, m.ptr[p], freep)| < |Ahead(m.free, p, freep)|
  {
    AheadStep(m, base, p, freep);
    var q := m.ptr[p];
    assert LinkedAt(m, base, q) && BlockOk(m, base, q);
  }

  /** Back at freep without a fit: nothing fits. */
  lemma ScanEnd(m: Image, base: int, freep: int, prevp: int, p: int, n: nat)
    requires Scanning(m, base, freep, prevp, p, n) && m.size[p] < n && p == freep
    ensures !Fits(m, n)
  {
    assert Ahead(m.free, p, freep) == {p};
  }

  lemma StartFits(m: Image, m': Image, base: int, n: nat)
    requires 1 <= n
    requires m' == m || (m.free == {} && m'.free == {base} && m'.size == m.size[base := 0])
    ensures Fits(m', n) <==> Fits(m, n)
  {
  }

  lemma EmptyOk(m: Image, base: int)
    requires m.free == {base} && m.live == {} && m.owner == map[] && base < m.brk
    requires base in m.ptr && m.ptr[base] == base && base in m.size && m.size[base] == 0
    ensures Ok(m, base)
  {
  }

  /** The block just freed is part of a free block at least as large. */
  lemma FreedFits(g: Image, base: int, p: int, bp: int)
    requires Ok(g, base) && bp in g.live && IsSlot(g, p, bp) && HeadersRead(g, p, bp)
    ensures 0 <= g.size[bp] && Fits(Freed(g, p, bp), g.size[bp])
  {
    assert LinkedAt(g, base, p) && BlockOk(g, base, p) && BlockOk(g, base, bp) && BlockOk(g, base, g.ptr[p]);
    var m' := Freed(g, p, bp);
    if p + g.size[p] == bp {
      assert p in m'.free && m'.size[p] >= g.size[bp];
    } else {
      assert bp in m'.free && m'.size[bp] >= g.size[bp];
    }
  }

  // ---- Any sequence of calls

  /** One change of the heap: free, the allocating part of malloc, morecore. */
  datatype Change = FreeAt(p: int, bp: int) | TakeBehind(prevp: int, n: nat) | Core(a: int, n: nat, p: int)

  ghost predicate Changes(m: Image, c: Change, m': Image, base: int)
  {
    match c
    case FreeAt(p, bp) =>
      bp in m.live && IsSlot(m, p, bp) && HeadersRead(m, p, bp) && m' == Freed(m, p, bp)
    case TakeBehind(prevp, n) =>
      && 1 <= n && prevp in m.free && prevp in m.ptr && m.ptr[prevp] in m.ptr && m.ptr[prevp] in m.size
      && n <= m.size[m.ptr[prevp]] && m' == Allocated(m, prevp, m.ptr[prevp], n)
    case Core(a, n, p) =>
      var g := Grow(m, a, n);
      1 <= n && m.brk <= a && IsSlot(g, p, a) && HeadersRead(g, p, a) && m' == Freed(g, p, a)
  }

  /** Units obtained from sbrk by a sequence of changes. */
  ghost function Obtained(cs: seq<Change>): set<int>
  {
    if cs == [] then {}
    else
      var c := cs[|cs| - 1];
      Obtained(cs[..|cs| - 1]) + if c.Core? then Fresh(c.a, c.n).Keys else {}
  }

  lemma ChangeKeeps(m: Image, c: Change, m': Image, base: int)
    requires Ok(m, base) && Changes(m, c, m', base)
    ensures Ok(m', base)
    ensures m'.owner.Keys == m.owner.Keys + if c.Core? then Fresh(c.a, c.n).Keys else {}
  {
    match c
    case FreeAt(p, bp) => FreeKeeps(m, base, p, bp);
    case TakeBehind(prevp, n) => AllocKeeps(m, base, prevp, m.ptr[prevp], n);
    case Core(a, n, p) =>
      GrowKeeps(m, base, a, n);
      FreeKeeps(Grow(m, a, n), base, p, a);
  }

  /** Heap soundness: along any sequence of frees and mallocs the free list is one address-ordered
      cycle without touching blocks, and live and free blocks together tile exactly the units
      obtained from sbrk.
   */
  lemma {:induction false} HeapAlwaysSound(ms: seq<Image>, cs: seq<Change>, base: int)
    requires |ms| == |cs| + 1 && Ok(ms[0], base)
    requires forall i :: 0 <= i < |cs| ==> Changes(ms[i], cs[i], ms[i + 1], base)
    ensures Ok(ms[|cs|], base)
    ensures ms[|cs|].owner.Keys == ms[0].owner.Keys + Obtained(cs)
  {
    if |cs| > 0 {
      var n := |cs| - 1;
      HeapAlwaysSound(ms[..n + 1], cs[..n], base);
      ChangeKeeps(ms[n], cs[n], ms[n + 1], base);
    }
  }

  /** What the tiling means: every unit lies in exactly one block. */
  lemma ExactlyOneBlock(m: Image, base: int, x: int)
    requires Tiled(m, base) && x in m.owner
    ensures IsBlock(m, base, m.owner[x]) && m.owner[x] in m.size
    ensures m.owner[x] <= x < m.owner[x] + m.size[m.owner[x]]
    ensures forall b :: IsBlock(m, base, b) && b in m.size && b <= x < b + m.size[b] ==> b == m.owner[x]
  {
    assert UnitOk(m, base, x);
    forall b | IsBlock(m, base, b) && b in m.size && b <= x < b + m.size[b] ensures b == m.owner[x] {
      assert BlockOk(m, base, b);
    }
  }
}
