/** pipe.c: a bounded byte queue with wrapping 32-bit counters, shared by sleeping readers and
    writers.
 */
module Pipe {

  const PIPESIZE := 512
  const UINT := 0x1_0000_0000

  /** struct pipe */
  datatype Ring = Ring(data: seq<char>, nread: nat, nwrite: nat, readopen: bool, writeopen: bool)

  /** What went through a pipe so far. */
  datatype Flow = Flow(written: seq<char>, got: seq<char>)

  /** The ring holds exactly what was written and not yet read. */
  ghost predicate Rep(r: Ring, f: Flow)
  {
    && |r.data| == PIPESIZE
    && f.got <= f.written
    && |f.written| - |f.got| <= PIPESIZE
    && r.nread == |f.got| % UINT
    && r.nwrite == |f.written| % UINT
    && forall k :: |f.got| <= k < |f.written| ==> r.data[k % PIPESIZE] == f.written[k]
  }

  predicate Full(r: Ring)
  {
    r.nwrite == (r.nread + PIPESIZE) % UINT
  }

  predicate Empty(r: Ring)
  {
    r.nread == r.nwrite
  }

  /** The counter tests mean what they say in spite of wrap-around. */
  lemma CountersTell(r: Ring, f: Flow)
    requires Rep(r, f)
    ensures Full(r) <==> |f.written| - |f.got| == PIPESIZE
    ensures Empty(r) <==> f.written == f.got
  {
    var n := |f.written| - |f.got|;
    assert r.nwrite == (|f.got| + n) % UINT;
    assert Empty(r) ==> n % UINT == 0;
    if n == 0 {
      assert f.written[..|f.got|] == f.written;
    }
  }

  /** One byte in. */
  function PutByte(r: Ring, c: char): Ring
    requires |r.data| == PIPESIZE
  {
    r.(data := r.data[r.nwrite % PIPESIZE := c], nwrite := (r.nwrite + 1) % UINT)
  }

  lemma Slot(n: nat)
    ensures n % UINT % PIPESIZE == n % PIPESIZE
    ensures (n % UINT + 1) % UINT == (n + 1) % UINT
  {
    assert n == n / UINT * UINT + n % UINT;
  }

  lemma SlotsDiffer(k: nat, n: nat)
    requires k < n < k + PIPESIZE
    ensures k % PIPESIZE != n % PIPESIZE
  {
  }

  lemma PutKeeps(r: Ring, f: Flow, c: char)
    requires Rep(r, f) && !Full(r)
    ensures Rep(PutByte(r, c), f.(written := f.written + [c]))
  {
    CountersTell(r, f);
    var n := |f.written|;
    Slot(n);
    var r' := PutByte(r, c);
    var w := f.written + [c];
    forall k | |f.got| <= k < |w| ensures r'.data[k % PIPESIZE] == w[k] {
      if k < n {
        SlotsDiffer(k, n);
      }
    }
  }

  /** One byte out. */
  function GetByte(r: Ring): Ring
  {
    r.(nread := (r.nread + 1) % UINT)
  }

  lemma GetKeeps(r: Ring, f: Flow)
    requires Rep(r, f) && !Empty(r)
    ensures |f.got| < |f.written|
    ensures r.data[r.nread % PIPESIZE] == f.written[|f.got|]
    ensures Rep(GetByte(r), f.(got := f.got + [f.written[|f.got|]]))
  {
    CountersTell(r, f);
    var n := |f.got|;
    assert f.written[..n] == f.got && f.written[..|f.written|] == f.written;
    Slot(n);
    assert (f.got + [f.written[n]]) == f.written[..n + 1];
  }

  /** pipewrite's loop from byte i on, until it is done or finds the ring full: the ring, and the byte it is at. */
  function PutBytes(r: Ring, addr: seq<char>, i: nat): (p: (Ring, nat))
    requires |r.data| == PIPESIZE && i <= |addr|
    ensures |p.0.data| == PIPESIZE && i <= p.1 <= |addr|
    ensures p.0.readopen == r.readopen && p.0.writeopen == r.writeopen
    decreases |addr| - i
  {
    if i == |addr| || Full(r) then (r, i) else PutBytes(PutByte(r, addr[i]), addr, i + 1)
  }

  /** piperead's loop for at most n bytes, until it finds the ring empty: the ring, and the bytes. */
  function GetBytes(r: Ring, n: nat): (p: (Ring, seq<char>))
    requires |r.data| == PIPESIZE
    ensures |p.0.data| == PIPESIZE && |p.1| <= n
    ensures p.0.readopen == r.readopen && p.0.writeopen == r.writeopen
    decreases n
  {
    if n == 0 || Empty(r) then (r, [])
    else
      var rest := GetBytes(GetByte(r), n - 1);
      (rest.0, [r.data[r.nread % PIPESIZE]] + rest.1)
  }

  /** The loop puts in what fits, in order. */
  lemma {:induction false} PutBytesKeeps(r: Ring, f: Flow, addr: seq<char>, i: nat)
    requires Rep(r, f) && i <= |addr|
    ensures var (r', j) := PutBytes(r, addr, i);
      && j == i + Room(f, |addr| - i)
      && Rep(r', f.(written := f.written + addr[i..j])) && (j < |addr| ==> Full(r'))
    decreases |addr| - i
  {
    hide Rep, Full, PutByte;
    RepRange(r, f);
    if i == |addr| || Full(r) {
      CountersTell(r, f);
      assert addr[i..i] == [] && f.written + [] == f.written;
      return;
    }
    CountersTell(r, f);
    PutKeeps(r, f, addr[i]);
    var f' := f.(written := f.written + [addr[i]]);
    PutBytesKeeps(PutByte(r, addr[i]), f', addr, i + 1);
    var j := PutBytes(r, addr, i).1;
    assert [addr[i]] + addr[i + 1..j] == addr[i..j];
    assert f'.written + addr[i + 1..j] == f.written + addr[i..j];
  }

  lemma RepRange(r: Ring, f: Flow)
    requires Rep(r, f)
    ensures |f.got| <= |f.written| <= |f.got| + PIPESIZE && f.got <= f.written
    ensures |r.data| == PIPESIZE
  {
  }

  /** The loop takes out the oldest bytes, in order. */
  lemma {:induction false} GetBytesKeeps(r: Ring, f: Flow, n: nat)
    requires Rep(r, f)
    ensures |f.got| <= |f.written|
    ensures var (r', cs) := GetBytes(r, n);
      && cs == f.written[|f.got|..|f.got| + Taken(f, n)]
      && Rep(r', f.(got := f.got + cs))
    decreases n
  {
    hide *;
    RepRange(r, f);
    CountersTell(r, f);
    GetBytesUnfolds(r, n);
    TakenNext(f, n);
    if n == 0 || Empty(r) {
      assert f.got + [] == f.got;
      return;
    }
    GetKeeps(r, f);
    var g := |f.got|;
    var f' := f.(got := f.got + [f.written[g]]);
    GetBytesKeeps(GetByte(r), f', n - 1);
    var cs := GetBytes(GetByte(r), n - 1).1;
    OneAndRest(f.written, g, Taken(f', n - 1));
    assert f'.got + cs == f.got + ([f.written[g]] + cs);
  }

  lemma GetBytesUnfolds(r: Ring, n: nat)
    requires |r.data| == PIPESIZE
    ensures |GetByte(r).data| == PIPESIZE
    ensures n == 0 || Empty(r) ==> GetBytes(r, n) == (r, [])
    ensures n > 0 && !Empty(r) ==>
      GetBytes(r, n) == (GetBytes(GetByte(r), n - 1).0, [r.data[r.nread % PIPESIZE]] + GetBytes(GetByte(r), n - 1).1)
  {
  }

  lemma TakenNext(f: Flow, n: nat)
    requires |f.got| <= |f.written|
    ensures n == 0 || f.written == f.got ==> Taken(f, n) == 0
    ensures n > 0 && |f.got| < |f.written| ==>
      Taken(f, n) == 1 + Taken(f.(got := f.got + [f.written[|f.got|]]), n - 1)
  {
  }

  lemma OneAndRest(s: seq<char>, g: nat, k: nat)
    requires g + 1 + k <= |s|
    ensures [s[g]] + s[g + 1..g + 1 + k] == s[g..g + (k + 1)]
  {
  }

  /** piperead's loop began with ring r0 and n bytes to read, and has taken addr. */
  ghost predicate Draining(r0: Ring, n: nat, r: Ring, addr: seq<char>)
  {
    && |r0.data| == PIPESIZE && |r.data| == PIPESIZE && |addr| <= n
    && var rest := GetBytes(r, n - |addr|); GetBytes(r0, n) == (rest.0, addr + rest.1)
  }

  lemma DrainStart(r: Ring, n: nat)
    requires |r.data| == PIPESIZE
    ensures Draining(r, n, r, [])
  {
    var rest := GetBytes(r, n);
    assert [] + rest.1 == rest.1;
  }

  lemma DrainStep(r0: Ring, n: nat, r: Ring, addr: seq<char>)
    requires Draining(r0, n, r, addr) && |addr| < n && !Empty(r)
    ensures Draining(r0, n, GetByte(r), addr + [r.data[r.nread % PIPESIZE]])
  {
    var c := r.data[r.nread % PIPESIZE];
    var rest := GetBytes(GetByte(r), n - |addr| - 1).1;
    assert addr + ([c] + rest) == addr + [c] + rest;
  }

  lemma DrainEnd(r0: Ring, n: nat, r: Ring, addr: seq<char>)
    requires Draining(r0, n, r, addr) && (|addr| == n || Empty(r))
    ensures (r, addr) == GetBytes(r0, n)
  {
    assert addr + [] == addr;
  }

  // ---- Calls, cut at the points where they sleep

  function Min(a: int, b: int): int
  {
    if a < b then a else b
  }

  /** Bytes that a writer with the rest `rest` puts before it is done or the pipe is full. */
  function Room(f: Flow, rest: nat): (k: int)
    requires |f.got| <= |f.written| <= |f.got| + PIPESIZE
    ensures 0 <= k <= rest
  {
    Min(rest, PIPESIZE - (|f.written| - |f.got|))
  }

  datatype WriteEnd = Wrote | WriteFailed | WriteSleeps
  datatype ReadEnd = Read | ReadFailed | ReadSleeps
  datatype Sleepers = Readers | Writers

  /** pipewrite from byte i on, until it returns or sleeps. */
  function WriteOutcome(f: Flow, readopen: bool, addr: seq<char>, i: nat, killed: bool): WriteEnd
    requires |f.got| <= |f.written| <= |f.got| + PIPESIZE && i <= |addr|
  {
    if i + Room(f, |addr| - i) == |addr| then Wrote
    else if !readopen || killed then WriteFailed
    else WriteSleeps
  }

  /** piperead, until it returns or sleeps. */
  function ReadOutcome(f: Flow, writeopen: bool, killed: bool): ReadEnd
  {
    if f.written == f.got && writeopen then if killed then ReadFailed else ReadSleeps
    else Read
  }

  function Taken(f: Flow, n: nat): (k: int)
    requires |f.got| <= |f.written|
    ensures 0 <= k <= |f.written| - |f.got|
  {
    Min(n, |f.written| - |f.got|)
  }

  class Pipe {
    const data: array<char>
    var nread: nat
    var nwrite: nat
    var readopen: bool
    var writeopen: bool
    ghost var flow: Flow

    ghost function Value(): Ring
      reads this, data
    {
      Ring(data[..], nread, nwrite, readopen, writeopen)
    }

    ghost predicate Valid()
      reads this, data
    {
      data.Length == PIPESIZE && Rep(Value(), flow)
    }

    constructor ()
      ensures Valid() && flow == Flow([], []) && readopen && writeopen && fresh(data)
    {
      data := new char[PIPESIZE](_ => '\0');
      nread, nwrite, readopen, writeopen := 0, 0, true, true;
      flow := Flow([], []);
    }

    /** pipewrite between two sleeps; `woke` tells whether readers were woken. */
    method Write(addr: seq<char>, start: nat, killed: bool) returns (end: WriteEnd, i: nat, woke: bool)
      requires Valid() && start <= |addr|
      modifies this`nwrite, this`flow, data
      ensures Valid() && flow.got == old(flow.got)
      ensures i == start + Room(old(flow), |addr| - start)
      ensures flow.written == old(flow.written) + addr[start..i]
      ensures (Value(), i) == PutBytes(old(Value()), addr, start)
      ensures end == WriteOutcome(old(flow), readopen, addr, start, killed)
      ensures woke <==> end != WriteFailed
    {
      ghost var r0 := Value();
      PutBytesKeeps(r0, flow, addr, start);
      hide Rep, Room;
      i := start;
      while i < |addr|
        invariant start <= i <= |addr| && flow == old(flow)
        invariant PutBytes(r0, addr, start) == PutBytes(Value(), addr, i)
      {
        if nwrite == (nread + PIPESIZE) % UINT {
          flow := flow.(written := flow.written + addr[start..i]);
          if !readopen || killed {
            return WriteFailed, i, false;
          }
          return WriteSleeps, i, true;
        }
        ghost var r := Value();
        data[nwrite % PIPESIZE] := addr[i];
        nwrite := (nwrite + 1) % UINT;
        assert Value() == PutByte(r, addr[i]);
        i := i + 1;
      }
      flow := flow.(written := flow.written + addr[start..i]);
      return Wrote, i, true;
    }

    /** piperead between two sleeps; `woke` tells whether writers were woken. */
    method ReadUpTo(n: nat, killed: bool) returns (end: ReadEnd, addr: seq<char>, woke: bool)
      requires Valid()
      modifies this`nread, this`flow
      ensures Valid() && flow.written == old(flow.written)
      ensures end == ReadOutcome(old(flow), writeopen, killed)
      ensures end != Read ==> addr == [] && flow == old(flow)
      ensures end == Read ==> |addr| == Taken(old(flow), n) && flow.got == old(flow.got) + addr
      ensures end == Read ==> (Value(), addr) == GetBytes(old(Value()), n)
      ensures woke <==> end == Read
    {
      hide Rep, Draining, GetBytes;
      addr, woke := [], false;
      CountersTell(Value(), flow);
      if nread == nwrite && writeopen {
        return if killed then ReadFailed else ReadSleeps, [], false;
      }
      ghost var r0 := Value();
      GetBytesKeeps(r0, flow, n);
      DrainStart(r0, n);
      var i := 0;
      while i < n
        invariant i == |addr| <= n && Draining(r0, n, Value(), addr) && flow == old(flow)
      {
        if nread == nwrite {
          break;
        }
        ghost var r := Value();
        DrainStep(r0, n, r, addr);
        addr := addr + [data[nread % PIPESIZE]];
        nread := (nread + 1) % UINT;
        assert Value() == GetByte(r);
        i := i + 1;
      }
      DrainEnd(r0, n, Value(), addr);
      flow := flow.(got := flow.got + addr);
      end, woke := Read, true;
    }

    /** pipeclose: whom it wakes, and whether the pipe is gone. */
    method Close(writable: bool) returns (woken: Sleepers, gone: bool)
      requires Valid()
      modifies this`readopen, this`writeopen
      ensures Valid() && flow == old(flow)
      ensures writeopen == (old(writeopen) && !writable) && readopen == (old(readopen) && writable)
      ensures woken == if writable then Readers else Writers
      ensures gone <==> !readopen && !writeopen
    {
      if writable {
        writeopen := false;
        woken := Readers;
      } else {
        readopen := false;
        woken := Writers;
      }
      gone := !readopen && !writeopen;
    }
  }
}
