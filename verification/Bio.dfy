/** bio.c: the buffers on a ring of prev and next links around a head, against BufferCache. */
module Bio {
  import opened BufferCache

  // ---- The ring

  /** The node at place k of the ring: place -1 and the place after the last buffer are the head. */
  function Node(order: seq<int>, head: int, k: int): int
  {
    if 0 <= k < |order| then order[k] else head
  }

  predicate RingAt(next: seq<int>, prev: seq<int>, order: seq<int>, head: int, k: int)
  {
    -1 <= k < |order| ==>
      && 0 <= Node(order, head, k) <= head && 0 <= Node(order, head, k + 1) <= head
      && |next| == |prev| == head + 1
      && next[Node(order, head, k)] == Node(order, head, k + 1)
      && prev[Node(order, head, k + 1)] == Node(order, head, k)
  }

  ghost predicate Ring(next: seq<int>, prev: seq<int>, order: seq<int>, head: int)
  {
    && 0 <= head && |next| == |prev| == head + 1
    && (forall k :: 0 <= k < |order| ==> 0 <= order[k] < head)
    && (forall j, k :: 0 <= j < k < |order| ==> order[j] != order[k])
    && (forall k {:trigger RingAt(next, prev, order, head, k)} :: RingAt(next, prev, order, head, k))
  }

  function Without(order: seq<int>, k: int): seq<int>
    requires 0 <= k < |order|
  {
    order[..k] + order[k + 1..]
  }

  lemma UnlinkKeeps(next: seq<int>, prev: seq<int>, order: seq<int>, head: int, k: int)
    requires Ring(next, prev, order, head) && 0 <= k < |order|
    ensures var b := order[k];
      && 0 <= b < head && 0 <= next[b] <= head && 0 <= prev[b] <= head
      && Ring(next[prev[b] := next[b]], prev[next[b] := prev[b]], Without(order, k), head)
  {
    var b := order[k];
    assert RingAt(next, prev, order, head, k) && RingAt(next, prev, order, head, k - 1);
    var next', prev', order' := next[prev[b] := next[b]], prev[next[b] := prev[b]], Without(order, k);
    assert forall j :: 0 <= j < |order'| ==> order'[j] == order[if j < k then j else j + 1];
    forall j ensures RingAt(next', prev', order', head, j) {
      assert RingAt(next, prev, order, head, j) && RingAt(next, prev, order, head, j + 1);
      UnlinkAt(next, prev, order, head, k, j);
    }
  }

  lemma UnlinkAt(next: seq<int>, prev: seq<int>, order: seq<int>, head: int, k: int, j: int)
    requires 0 <= head && |next| == |prev| == head + 1 && 0 <= k < |order|
    requires forall x :: 0 <= x < |order| ==> 0 <= order[x] < head
    requires forall x, y :: 0 <= x < y < |order| ==> order[x] != order[y]
    requires RingAt(next, prev, order, head, k) && RingAt(next, prev, order, head, k - 1)
    requires RingAt(next, prev, order, head, j) && RingAt(next, prev, order, head, j + 1)
    ensures var b := order[k];
      0 <= next[b] <= head && 0 <= prev[b] <= head
      && RingAt(next[prev[b] := next[b]], prev[next[b] := prev[b]], Without(order, k), head, j)
  {
    var order' := Without(order, k);
    assert forall x :: 0 <= x < |order'| ==> order'[x] == order[if x < k then x else x + 1];
  }

  lemma PushFrontKeeps(next: seq<int>, prev: seq<int>, order: seq<int>, head: int, b: int)
    requires Ring(next, prev, order, head) && 0 <= b < head && b !in order
    ensures 0 <= next[head] <= head
    ensures Ring(next[b := next[head]][head := b], prev[b := head][next[head] := b], [b] + order, head)
  {
    assert RingAt(next, prev, order, head, -1);
    var next', prev', order' := next[b := next[head]][head := b], prev[b := head][next[head] := b], [b] + order;
    forall j ensures RingAt(next', prev', order', head, j) {
      assert RingAt(next, prev, order, head, j) && RingAt(next, prev, order, head, j - 1);
    }
  }

  /** Steps along the ring. */
  lemma RingStep(next: seq<int>, prev: seq<int>, order: seq<int>, head: int, k: int)
    requires Ring(next, prev, order, head) && -1 <= k <= |order|
    ensures k < |order| ==> next[Node(order, head, k)] == Node(order, head, k + 1)
    ensures 0 <= k ==> prev[Node(order, head, k)] == Node(order, head, k - 1)
    ensures 0 <= Node(order, head, k) <= head && (Node(order, head, k) == head <==> k == -1 || k == |order|)
  {
    assert RingAt(next, prev, order, head, k) && RingAt(next, prev, order, head, k - 1);
  }

  class Bcache {
    const head: int
    var bufs: seq<Buf>
    var next: seq<int>
    var prev: seq<int>
    var disk: seq<Block>
    ghost var order: seq<int>

    ghost function C(): Cache
      reads this
    {
      Cache(bufs, order, disk)
    }

    ghost predicate Valid()
      reads this
    {
      |bufs| == head && Ring(next, prev, order, head) && ListOk(C())
    }

    /** binit */
    constructor (buffers: seq<Buf>, image: seq<Block>)
      requires forall b :: 0 <= b < |buffers| ==> !buffers[b].busy && !buffers[b].valid && !buffers[b].dirty
      ensures Valid() && disk == image && |bufs| == |buffers| && Boot(State(C(), disk, {}))
    {
      head := |buffers|;
      bufs, disk, order := buffers, image, [];
      next := seq(|buffers| + 1, _ => |buffers|);
      prev := seq(|buffers| + 1, _ => |buffers|);
      new;
      forall k ensures RingAt(next, prev, order, head, k) { }
      var b := 0;
      while b < head
        invariant 0 <= b <= head == |bufs| && disk == image && Ring(next, prev, order, head) && |order| == b
        invariant forall x :: x in order <==> 0 <= x < b
        invariant forall x :: 0 <= x < b ==> bufs[x].dev == -1
        invariant forall x :: 0 <= x < head ==> !bufs[x].busy && !bufs[x].valid && !bufs[x].dirty
      {
        PushFrontKeeps(next, prev, order, head, b);
        next := next[b := next[head]];
        prev := prev[b := head];
        bufs := bufs[b := bufs[b].(dev := -1)];
        prev := prev[next[head] := b];
        next := next[head := b];
        order := [b] + order;
        b := b + 1;
      }
      assert ListOk(C());
    }

    /** One pass of bget: a buffer, or the one to sleep on, or the panic. */
    method Bget(dev: int, sector: int) returns (b: int, got: bool)
      requires Valid()
      modifies this`bufs
      ensures Valid()
      ensures match BufferCache.Bget(old(C()), dev, sector)
        case Got(c, x) => got && b == x && C() == c
        case Wait(x) => !got && b == x && C() == old(C())
        case NoBuffers => !got && b == NONE && C() == old(C())
    {
      b := Cached(dev, sector);
      if b != head {
        if bufs[b].busy {
          return b, false;
        }
        bufs := bufs[b := bufs[b].(busy := true)];
        return b, true;
      }
      b := Spare();
      if b != head {
        bufs := bufs[b := Buf(dev, sector, true, false, false, bufs[b].data)];
        return b, true;
      }
      return NONE, false;
    }

    /** Its scan for a cached buffer, from the most recently used on; the head if there is none. */
    method Cached(dev: int, sector: int) returns (b: int)
      requires Valid()
      ensures var k := FindSector(C(), dev, sector, 0); b == if k == NONE then head else order[k]
    {
      RingStep(next, prev, order, head, -1);
      b := next[head];
      ghost var k := 0;
      while b != head
        invariant 0 <= k <= |order| && b == Node(order, head, k)
        invariant FindSector(C(), dev, sector, 0) == FindSector(C(), dev, sector, k)
        decreases |order| - k
      {
        RingStep(next, prev, order, head, k);
        if bufs[b].dev == dev && bufs[b].sector == sector {
          return;
        }
        b := next[b];
        k := k + 1;
      }
      RingStep(next, prev, order, head, k);
    }

    /** Its scan for a buffer to recycle, from the least recently used back. */
    method Spare() returns (b: int)
      requires Valid()
      ensures var k := FindSpare(C(), |order|); b == if k == NONE then head else order[k]
    {
      RingStep(next, prev, order, head, |order|);
      b := prev[head];
      ghost var k := |order|;
      while b != head
        invariant 0 <= k <= |order| && b == Node(order, head, k - 1)
        invariant FindSpare(C(), |order|) == FindSpare(C(), k)
        decreases k
      {
        RingStep(next, prev, order, head, k - 1);
        if !bufs[b].busy && !bufs[b].dirty {
          return;
        }
        b := prev[b];
        k := k - 1;
      }
      RingStep(next, prev, order, head, k - 1);
    }

    method Iderw(b: int)
      requires Valid() && CanTransfer(C(), b)
      modifies this`bufs, this`disk
      ensures Valid() && C() == BufferCache.Iderw(old(C()), b)
    {
      var sector := bufs[b].sector;
      if bufs[b].dirty {
        bufs := bufs[b := bufs[b].(dirty := false)];
        disk := disk[sector := bufs[b].data];
      } else {
        bufs := bufs[b := bufs[b].(data := disk[sector])];
      }
      bufs := bufs[b := bufs[b].(valid := true)];
    }

    /** bread, given that bget does not have to wait: the buffer holds the sector of the plain disk. */
    method Bread(sector: int, ghost s: State) returns (b: int)
      requires Valid() && Inv(s) && s.c == C() && Enabled(s, Get(sector))
      modifies this`bufs, this`disk
      ensures Valid() && b == BufferCache.Bget(old(C()), DISK, sector).b
      ensures C() == BufferCache.Bread(s, sector).c && 0 <= sector < |s.plain|
      ensures InCache(C(), b) && bufs[b].data == s.plain[sector]
    {
      BreadIsPlain(s, sector);
      hide Inv, BufferCache.Bread, ListOk;
      var got;
      b, got := Bget(DISK, sector);
      if !bufs[b].valid {
        Iderw(b);
      }
    }

    /** The source panics if b is not busy. */
    method Bwrite(b: int, ghost s: State)
      requires Valid() && Inv(s) && s.c == C() && Enabled(s, Write(b))
      modifies this`bufs, this`disk
      ensures Valid() && C() == Step(s, Write(b)).c
    {
      WriteKeeps(s, b);
      bufs := bufs[b := bufs[b].(dirty := true)];
      Iderw(b);
    }

    /** The source panics if b is not busy. */
    method Brelse(b: int, ghost k: int)
      requires Valid() && Held(C(), b) && 0 <= k < |order| && order[k] == b
      modifies this`bufs, this`next, this`prev, this`order
      ensures Valid()
      ensures C() == SetBuf(old(C()), b, old(bufs)[b].(busy := false)).(order := ToFront(old(order), k))
    {
      UnlinkKeeps(next, prev, order, head, k);
      FrontOk(C(), k, SetBuf(C(), b, bufs[b].(busy := false)).(order := ToFront(order, k)));
      Unlinked(next, prev, order, head, k);
      hide Ring, ListOk;
      prev := prev[next[b] := prev[b]];
      next := next[prev[b] := next[b]];
      ghost var rest := Without(order, k);
      PushFrontKeeps(next, prev, rest, head, b);
      next := next[b := next[head]];
      prev := prev[b := head];
      prev := prev[next[head] := b];
      next := next[head := b];
      order := [b] + rest;
      bufs := bufs[b := bufs[b].(busy := false)];
    }
  }

  /** The buffer taken out is not in what is left, and its own links do not change as it goes. */
  lemma Unlinked(next: seq<int>, prev: seq<int>, order: seq<int>, head: int, k: int)
    requires Ring(next, prev, order, head) && 0 <= k < |order|
    ensures var b := order[k];
      && 0 <= b < head && |next| == |prev| == head + 1 && 0 <= next[b] <= head && 0 <= prev[b] <= head
      && next[b] != b && prev[b] != b && b !in Without(order, k)
      && [b] + Without(order, k) == ToFront(order, k)
  {
    assert RingAt(next, prev, order, head, k) && RingAt(next, prev, order, head, k - 1);
  }
}
