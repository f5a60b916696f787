/** rrqueue in proc.c: a doubly linked list threaded through the process table, with the ticket
    fields of its members.  Slots of the table stand for process pointers, NIL for null.
 */
module RunQueue {
  import opened Lottery

  const NIL := -1

  datatype Node = Node(rrnext: int, rrprev: int, first: int, tickets: int)

  ghost predicate Distinct(queue: seq<int>)
  {
    forall i, j :: 0 <= i < j < |queue| ==> queue[i] != queue[j]
  }

  /** The links at position k. */
  ghost predicate LinkedAt(nodes: seq<Node>, queue: seq<int>, k: int)
  {
    0 <= k < |queue| ==>
      && 0 <= queue[k] < |nodes|
      && nodes[queue[k]].rrnext == (if k + 1 < |queue| then queue[k + 1] else NIL)
      && nodes[queue[k]].rrprev == (if k == 0 then NIL else queue[k - 1])
  }

  /** A process that is not queued has no links. */
  ghost predicate LooseAt(nodes: seq<Node>, queue: seq<int>, p: int)
  {
    0 <= p < |nodes| && p !in queue ==> nodes[p].rrnext == NIL && nodes[p].rrprev == NIL
  }

  ghost predicate Linked(nodes: seq<Node>, first: int, last: int, queue: seq<int>)
  {
    && Distinct(queue)
    && first == (if queue == [] then NIL else queue[0])
    && last == (if queue == [] then NIL else queue[|queue| - 1])
    && (forall k {:trigger LinkedAt(nodes, queue, k)} :: LinkedAt(nodes, queue, k))
    && (forall p {:trigger LooseAt(nodes, queue, p)} :: LooseAt(nodes, queue, p))
  }

  function Without(queue: seq<int>, k: nat): seq<int>
    requires k < |queue|
  {
    queue[..k] + queue[k + 1..]
  }

  lemma Places(nodes: seq<Node>, first: int, last: int, queue: seq<int>)
    requires Linked(nodes, first, last, queue)
    ensures forall k :: 0 <= k < |queue| ==> 0 <= queue[k] < |nodes|
  {
    forall k | 0 <= k < |queue| ensures 0 <= queue[k] < |nodes| {
      assert LinkedAt(nodes, queue, k);
    }
  }

  lemma EmptyIffNil(nodes: seq<Node>, first: int, last: int, queue: seq<int>)
    requires Linked(nodes, first, last, queue)
    ensures queue == [] <==> last == NIL
    ensures queue != [] ==> 0 <= first < |nodes| && 0 <= last < |nodes|
  {
    assert LinkedAt(nodes, queue, |queue| - 1) && LinkedAt(nodes, queue, 0);
  }

  lemma PushKeeps(nodes: seq<Node>, first: int, last: int, queue: seq<int>, p: int, nodes': seq<Node>)
    requires Linked(nodes, first, last, queue)
    requires 0 <= p < |nodes| && p !in queue
    requires nodes' == if queue == [] then nodes
      else if 0 <= last < |nodes| then nodes[last := nodes[last].(rrnext := p)][p := nodes[p].(rrprev := last)] else nodes
    ensures Linked(nodes', if queue == [] then p else first, p, queue + [p])
  {
    var queue' := queue + [p];
    assert LooseAt(nodes, queue, p);
    if queue != [] {
      assert LinkedAt(nodes, queue, |queue| - 1);
    }
    forall k ensures LinkedAt(nodes', queue', k) {
      assert LinkedAt(nodes, queue, k);
    }
    forall o ensures LooseAt(nodes', queue', o) {
      assert LooseAt(nodes, queue, o);
      assert o in queue ==> o in queue';
      assert queue'[|queue|] == p;
    }
  }

  /** The node array after unlinking p. */
  function Unlinked(nodes: seq<Node>, p: int): (r: seq<Node>)
    requires 0 <= p < |nodes|
    ensures |r| == |nodes|
  {
    var n1 := if 0 <= nodes[p].rrprev < |nodes|
              then nodes[nodes[p].rrprev := nodes[nodes[p].rrprev].(rrnext := nodes[p].rrnext)] else nodes;
    var n2 := if 0 <= n1[p].rrnext < |nodes|
              then n1[n1[p].rrnext := n1[n1[p].rrnext].(rrprev := n1[p].rrprev)] else n1;
    n2[p := n2[p].(rrnext := NIL, rrprev := NIL)]
  }

  lemma RemoveKeeps(nodes: seq<Node>, first: int, last: int, queue: seq<int>, k: nat)
    requires Linked(nodes, first, last, queue) && k < |queue| && 0 <= queue[k] < |nodes|
    ensures var p := queue[k];
      Linked(Unlinked(nodes, p), if p == first then nodes[p].rrnext else first,
             if p == last then nodes[p].rrprev else last, Without(queue, k))
  {
    var p := queue[k];
    var nodes' := Unlinked(nodes, p);
    var queue' := Without(queue, k);
    assert LinkedAt(nodes, queue, k) && LinkedAt(nodes, queue, k - 1) && LinkedAt(nodes, queue, k + 1);
    assert forall i :: 0 <= i < |queue'| ==> queue'[i] == queue[if i < k then i else i + 1];
    forall i ensures LinkedAt(nodes', queue', i) {
      assert LinkedAt(nodes, queue, i) && LinkedAt(nodes, queue, i + 1);
      RemoveLinked(nodes, queue, k, i);
    }
    forall o ensures LooseAt(nodes', queue', o) {
      RemoveLoose(nodes, queue, k, o);
    }
  }

  lemma RemoveLinked(nodes: seq<Node>, queue: seq<int>, k: nat, i: int)
    requires Distinct(queue) && k < |queue| && 0 <= queue[k] < |nodes|
    requires LinkedAt(nodes, queue, k) && LinkedAt(nodes, queue, k - 1) && LinkedAt(nodes, queue, k + 1)
    requires LinkedAt(nodes, queue, i) && LinkedAt(nodes, queue, i + 1)
    ensures LinkedAt(Unlinked(nodes, queue[k]), Without(queue, k), i)
  {
    var queue' := Without(queue, k);
    assert forall x :: 0 <= x < |queue'| ==> queue'[x] == queue[if x < k then x else x + 1];
  }

  lemma RemoveLoose(nodes: seq<Node>, queue: seq<int>, k: nat, o: int)
    requires k < |queue| && 0 <= queue[k] < |nodes|
    requires LinkedAt(nodes, queue, k) && LinkedAt(nodes, queue, k - 1) && LinkedAt(nodes, queue, k + 1)
    requires LooseAt(nodes, queue, o)
    ensures LooseAt(Unlinked(nodes, queue[k]), Without(queue, k), o)
  {
    var queue' := Without(queue, k);
    if o in queue && o != queue[k] {
      var i :| 0 <= i < |queue| && queue[i] == o;
      assert queue'[if i < k then i else i - 1] == o;
    } else if 0 <= o < |nodes| && o !in queue {
      assert k > 0 ==> queue[k - 1] in queue;
      assert k + 1 < |queue| ==> queue[k + 1] in queue;
    }
  }

  // ---- Who stays queued, and with which tickets

  function Filter(queue: seq<int>, runnable: seq<bool>): seq<int>
  {
    if queue == [] then []
    else
      var rest := Filter(queue[1..], runnable);
      if 0 <= queue[0] < |runnable| && runnable[queue[0]] then [queue[0]] + rest else rest
  }

  /** Delivery drops processes that are not RUNNABLE, except the first one under FRR and FCFS. */
  function Kept(policy: Policy, queue: seq<int>, runnable: seq<bool>): seq<int>
  {
    match policy
    case Fifo => if queue == [] then [] else [queue[0]] + Filter(queue[1..], runnable)
    case Priority => Filter(queue, runnable)
  }

  /** The priorities along a queue. */
  function PriosOf(queue: seq<int>, prio: seq<int>): (r: seq<int>)
    ensures |r| == |queue|
  {
    seq(|queue|, k requires 0 <= k < |queue| => if 0 <= queue[k] < |prio| then prio[queue[k]] else 0)
  }

  predicate DealtAt(nodes: seq<Node>, queue: seq<int>, ws: seq<nat>, k: int)
    requires |queue| == |ws|
  {
    0 <= k < |queue| ==>
      && 0 <= queue[k] < |nodes|
      && nodes[queue[k]].first == First(ws, k)
      && nodes[queue[k]].tickets == ws[k]
  }

  /** Every queued process holds the tickets it is due. */
  ghost predicate Dealt(nodes: seq<Node>, queue: seq<int>, ws: seq<nat>)
    requires |queue| == |ws|
  {
    forall k {:trigger DealtAt(nodes, queue, ws, k)} :: DealtAt(nodes, queue, ws, k)
  }

  ghost predicate AllRunnable(queue: seq<int>, runnable: seq<bool>)
  {
    forall k :: 0 <= k < |queue| ==> 0 <= queue[k] < |runnable| && runnable[queue[k]]
  }

  lemma {:induction false} FilterAll(queue: seq<int>, runnable: seq<bool>)
    requires AllRunnable(queue, runnable)
    ensures Filter(queue, runnable) == queue
  {
    if queue != [] {
      FilterAll(queue[1..], runnable);
      assert queue == [queue[0]] + queue[1..];
    }
  }

  lemma {:induction false} FilterIs(queue: seq<int>, runnable: seq<bool>, x: int)
    ensures x in Filter(queue, runnable) <==> x in queue && 0 <= x < |runnable| && runnable[x]
  {
    if queue != [] {
      FilterIs(queue[1..], runnable, x);
      assert queue == [queue[0]] + queue[1..];
    }
  }

  /** Who stays queued: the RUNNABLE processes and, under FRR and FCFS, the first one. */
  lemma KeptExactly(policy: Policy, queue: seq<int>, runnable: seq<bool>, x: int)
    ensures x in Kept(policy, queue, runnable) <==>
      x in queue && ((0 <= x < |runnable| && runnable[x]) || (policy == Fifo && x == queue[0]))
  {
    FilterIs(queue, runnable, x);
    if queue != [] {
      FilterIs(queue[1..], runnable, x);
      assert queue == [queue[0]] + queue[1..];
    }
  }

  /** A queue of RUNNABLE processes is delivered to as it is. */
  lemma KeptAll(policy: Policy, queue: seq<int>, runnable: seq<bool>)
    requires AllRunnable(queue, runnable)
    ensures Kept(policy, queue, runnable) == queue
  {
    if policy == Priority {
      FilterAll(queue, runnable);
    } else if queue != [] {
      FilterAll(queue[1..], runnable);
      assert [queue[0]] + queue[1..] == queue;
    }
  }

  /** Ticket fields are not links. */
  lemma RetagKeeps(nodes: seq<Node>, first: int, last: int, queue: seq<int>, p: int, f: int, t: int)
    requires Linked(nodes, first, last, queue) && 0 <= p < |nodes|
    ensures Linked(nodes[p := nodes[p].(first := f, tickets := t)], first, last, queue)
  {
    var nodes' := nodes[p := nodes[p].(first := f, tickets := t)];
    forall k ensures LinkedAt(nodes', queue, k) {
      assert LinkedAt(nodes, queue, k);
    }
    forall o ensures LooseAt(nodes', queue, o) {
      assert LooseAt(nodes, queue, o);
    }
  }

  lemma Prev(nodes: seq<Node>, first: int, last: int, queue: seq<int>, k: nat)
    requires Linked(nodes, first, last, queue) && k < |queue|
    ensures 0 <= queue[k] < |nodes|
    ensures nodes[queue[k]].rrprev == if k == 0 then NIL else queue[k - 1]
    ensures nodes[queue[k]].rrnext == if k + 1 < |queue| then queue[k + 1] else NIL
  {
    assert LinkedAt(nodes, queue, k);
  }

  // ---- Dealing from the end of the queue

  /** Unlinking leaves the ticket fields alone. */
  lemma UnlinkedTags(nodes: seq<Node>, p: int, o: int)
    requires 0 <= p < |nodes| && 0 <= o < |nodes|
    ensures Unlinked(nodes, p)[o].first == nodes[o].first && Unlinked(nodes, p)[o].tickets == nodes[o].tickets
  {
  }

  predicate TenAt(nodes: seq<Node>, queue: seq<int>, k: int)
  {
    0 <= k < |queue| ==>
      && 0 <= queue[k] < |nodes|
      && nodes[queue[k]].tickets == EXE_TICKETS
      && nodes[queue[k]].first == EXE_TICKETS * (|queue| - 1 - k) + 1
  }

  /** Everything behind position j has its ten tickets. */
  ghost predicate TenBehind(nodes: seq<Node>, queue: seq<int>, j: int)
  {
    forall k {:trigger TenAt(nodes, queue, k)} :: j < k ==> TenAt(nodes, queue, k)
  }

  lemma TenAfterRemove(nodes: seq<Node>, queue: seq<int>, j: nat)
    requires j < |queue| && 0 <= queue[j] < |nodes| && TenBehind(nodes, queue, j)
    ensures TenBehind(Unlinked(nodes, queue[j]), Without(queue, j), j - 1)
  {
    var nodes', queue' := Unlinked(nodes, queue[j]), Without(queue, j);
    forall k | j - 1 < k ensures TenAt(nodes', queue', k) {
      assert TenAt(nodes, queue, k + 1);
      if k < |queue'| {
        UnlinkedTags(nodes, queue[j], queue[k + 1]);
      }
    }
  }

  lemma TenAfterDeal(nodes: seq<Node>, queue: seq<int>, j: nat)
    requires j < |queue| && 0 <= queue[j] < |nodes| && TenBehind(nodes, queue, j) && Distinct(queue)
    ensures var n := nodes[queue[j]].(first := EXE_TICKETS * (|queue| - 1 - j) + 1, tickets := EXE_TICKETS);
      TenBehind(nodes[queue[j] := n], queue, j - 1)
  {
    var n := nodes[queue[j]].(first := EXE_TICKETS * (|queue| - 1 - j) + 1, tickets := EXE_TICKETS);
    var nodes' := nodes[queue[j] := n];
    forall k | j - 1 < k ensures TenAt(nodes', queue, k) {
      assert k != j ==> TenAt(nodes, queue, k);
    }
  }

  /** The FRR/FCFS shares are the weights of the lottery. */
  lemma TensAreWeights(nodes: seq<Node>, queue: seq<int>, prios: seq<int>)
    requires queue != [] && |queue| == |prios| && TenBehind(nodes, queue, 0)
    requires 0 <= queue[0] < |nodes|
    requires var before := EXE_TICKETS * (|queue| - 1);
      nodes[queue[0]].first == before + 1 && nodes[queue[0]].tickets == EXE_TICKETS + FIFO_DIFFERENCE * before
    ensures Dealt(nodes, queue, Weights(Fifo, prios))
  {
    var ws := Weights(Fifo, prios);
    forall k ensures DealtAt(nodes, queue, ws, k) {
      assert k != 0 ==> TenAt(nodes, queue, k);
      if 0 <= k < |queue| {
        SumOfEqual(ws[k + 1..], EXE_TICKETS);
      }
    }
  }

  class RunQueue {
    var nodes: seq<Node>
    var first: int
    var last: int
    var totalTickets: int
    ghost var queue: seq<int>

    ghost predicate Valid()
      reads this
    {
      Linked(nodes, first, last, queue)
    }

    constructor (n: nat)
      ensures Valid() && |nodes| == n && queue == []
    {
      nodes := seq(n, _ => Node(NIL, NIL, 0, 0));
      first, last, totalTickets, queue := NIL, NIL, 0, [];
    }

    method Push(p: int)
      requires Valid() && 0 <= p < |nodes| && p !in queue
      modifies this`nodes, this`first, this`last, this`queue
      ensures Valid() && queue == old(queue) + [p] && |nodes| == old(|nodes|)
    {
      ghost var was := nodes;
      Places(nodes, first, last, queue);
      if queue != [] {
        Prev(nodes, first, last, queue, |queue| - 1);
      }
      if first == NIL {
        first := p;
      }
      if last != NIL {
        nodes := nodes[last := nodes[last].(rrnext := p)];
        nodes := nodes[p := nodes[p].(rrprev := last)];
      }
      PushKeeps(was, old(first), last, queue, p, nodes);
      last := p;
      queue := queue + [p];
    }

    method Remove(p: int, ghost k: nat)
      requires Valid() && k < |queue| && queue[k] == p && 0 <= p < |nodes|
      modifies this`nodes, this`first, this`last, this`queue
      ensures Valid() && queue == Without(old(queue), k) && nodes == Unlinked(old(nodes), p)
      ensures first == if p == old(first) then old(nodes)[p].rrnext else old(first)
      ensures last == if p == old(last) then old(nodes)[p].rrprev else old(last)
    {
      RemoveKeeps(nodes, first, last, queue, k);
      LinkedAtNear(nodes, first, last, queue, k);
      if nodes[p].rrprev != NIL {
        nodes := nodes[nodes[p].rrprev := nodes[nodes[p].rrprev].(rrnext := nodes[p].rrnext)];
      }
      if nodes[p].rrnext != NIL {
        nodes := nodes[nodes[p].rrnext := nodes[nodes[p].rrnext].(rrprev := nodes[p].rrprev)];
      }
      if p == first {
        first := nodes[p].rrnext;
      }
      if p == last {
        last := nodes[p].rrprev;
      }
      nodes := nodes[p := nodes[p].(rrnext := NIL, rrprev := NIL)];
      queue := Without(queue, k);
    }

    /** deliverTicketsToFIFOProcs under FRR and FCFS. */
    method DeliverFifo(runnable: seq<bool>, ghost prio: seq<int>)
      requires Valid() && |runnable| == |nodes| == |prio|
      modifies this
      ensures Valid() && |nodes| == old(|nodes|)
      ensures queue == Kept(Fifo, old(queue), runnable)
      ensures Delivered(Fifo, nodes, queue, totalTickets, prio)
    {
      totalTickets := 0;
      var p := last;
      EmptyIffNil(nodes, first, last, queue);
      NothingToDeliver(Fifo, nodes, runnable, prio);
      hide Delivered, Kept, FifoLoop, Linked;
      if p != NIL {
        ghost var j := DealTens(runnable);
        DealHead(j, old(queue), runnable, prio);
      }
    }

    /** What is left for the first process when the loop ends. */
    method DealHead(ghost j: int, ghost q0: seq<int>, ghost runnable: seq<bool>, ghost prio: seq<int>)
      requires FifoLoop(nodes, first, last, queue, q0, j, totalTickets, runnable)
      requires |nodes| == |prio| && queue[j] == first && 0 <= first < |nodes|
      modifies this`nodes, this`totalTickets
      ensures Valid() && |nodes| == old(|nodes|)
      ensures queue == Kept(Fifo, q0, runnable)
      ensures Delivered(Fifo, nodes, queue, totalTickets, prio)
    {
      FifoEnd(nodes, first, last, queue, q0, j, totalTickets, runnable, prio);
      hide Delivered, Kept, FifoLoop, Linked;
      var p := first;
      nodes := nodes[p := nodes[p].(first := totalTickets + 1, tickets := EXE_TICKETS + FIFO_DIFFERENCE * totalTickets)];
      totalTickets := totalTickets + nodes[p].tickets;
    }

    /** Its loop, from the last process down to the first. */
    method DealTens(runnable: seq<bool>) returns (ghost j: int)
      requires Valid() && |runnable| == |nodes| && queue != [] && totalTickets == 0
      modifies this
      ensures FifoLoop(nodes, first, last, queue, old(queue), j, totalTickets, runnable)
      ensures |nodes| == old(|nodes|) && queue[j] == first && 0 <= first < |nodes|
    {
      ghost var q0 := queue;
      j := |queue| - 1;
      FifoStart(nodes, first, last, queue, runnable);
      hide FifoLoop, Linked, Unlinked, Without;
      var p := last;
      while p != first
        invariant FifoLoop(nodes, first, last, queue, q0, j, totalTickets, runnable)
        invariant |nodes| == |runnable| && 0 <= j < |queue| && queue[j] == p && 0 <= p < |nodes|
        decreases j
      {
        ghost var ns, f, l, q := nodes, first, last, queue;
        FifoLinked(ns, f, l, q, q0, j, totalTickets, runnable);
        if !runnable[p] {
          FifoDrop(ns, f, l, q, q0, j, totalTickets, runnable);
          var tmp := nodes[p].rrprev;
          Remove(p, j);
          p := tmp;
        } else {
          FifoDeal(ns, f, l, q, q0, j, totalTickets, runnable);
          nodes := nodes[p := nodes[p].(first := totalTickets + 1, tickets := EXE_TICKETS)];
          totalTickets := totalTickets + EXE_TICKETS;
          p := nodes[p].rrprev;
        }
        j := j - 1;
      }
    }

    /** deliverTicketsToFIFOProcs under PRS. */
    method DeliverPriority(runnable: seq<bool>, prio: seq<int>)
      requires Valid() && |runnable| == |nodes| == |prio|
      modifies this
      ensures Valid() && |nodes| == old(|nodes|)
      ensures queue == Kept(Priority, old(queue), runnable)
      ensures Delivered(Priority, nodes, queue, totalTickets, prio)
    {
      totalTickets := 0;
      EmptyIffNil(nodes, first, last, queue);
      NothingToDeliver(Priority, nodes, runnable, prio);
      hide Delivered, Kept, Linked, Filter;
      if last == NIL {
        return;
      }
      var low, mid := DropIdle(runnable, prio);
      DealByClass(prio, low, mid);
    }

    /** The first loop: drop who is not RUNNABLE, count the classes of the others. */
    method DropIdle(runnable: seq<bool>, prio: seq<int>) returns (low: nat, mid: nat)
      requires Valid() && |runnable| == |nodes| == |prio|
      modifies this`nodes, this`first, this`last, this`queue
      ensures Valid() && |nodes| == old(|nodes|)
      ensures queue == Filter(old(queue), runnable)
      ensures low == Low(PriosOf(queue, prio)) && mid == Mid(PriosOf(queue, prio))
    {
      ghost var q0 := queue;
      ghost var j := |queue| - 1;
      low, mid := 0, 0;
      var high := 0;
      var p := last;
      DropStart(nodes, first, last, queue, runnable, prio);
      hide DropLoop, Linked, Unlinked, Without, Filter, PriosOf;
      while p != NIL
        invariant DropLoop(nodes, first, last, queue, q0, j, low, mid, runnable, prio)
        invariant |nodes| == |runnable| && -1 <= j < |queue|
        invariant if j < 0 then p == NIL else p == queue[j] && 0 <= p < |nodes|
        decreases j
      {
        ghost var ns, f, l, q := nodes, first, last, queue;
        DropAt(ns, f, l, q, q0, j, low, mid, runnable, prio);
        if !runnable[p] {
          DropRemove(ns, f, l, q, q0, j, low, mid, runnable, prio);
          var tmp := nodes[p].rrprev;
          Remove(p, j);
          p := tmp;
        } else {
          ghost var low0, mid0 := low, mid;
          if prio[p] <= 0 {
            low := low + 1;
          } else if prio[p] == 1 {
            mid := mid + 1;
          } else if prio[p] >= 2 {
            high := high + 1;
          }
          DropKeep(ns, f, l, q, q0, j, low0, mid0, low, mid, runnable, prio);
          p := nodes[p].rrprev;
        }
        j := j - 1;
      }
      DropEnd(nodes, first, last, queue, q0, j, low, mid, runnable, prio);
    }

    /** The second loop: deal from the last process to the first. */
    method DealByClass(prio: seq<int>, low: nat, mid: nat)
      requires Valid() && |prio| == |nodes| && totalTickets == 0
      requires low == Low(PriosOf(queue, prio)) && mid == Mid(PriosOf(queue, prio))
      modifies this`nodes, this`totalTickets
      ensures Valid() && |nodes| == old(|nodes|)
      ensures Delivered(Priority, nodes, queue, totalTickets, prio)
    {
      ghost var ws := Weights(Priority, PriosOf(queue, prio));
      ghost var j := |queue| - 1;
      var p := last;
      DealStart(nodes, first, last, queue, ws);
      while p != NIL
        invariant DealLoop(nodes, first, last, queue, ws, j, totalTickets)
        invariant |nodes| == |prio| && if j < 0 then p == NIL else p == queue[j] && 0 <= p < |nodes|
        decreases j
      {
        DealStep(nodes, first, last, queue, ws, j, totalTickets);
        var t := ClassTickets(prio[p], low, mid);
        nodes := nodes[p := nodes[p].(first := totalTickets + 1, tickets := t)];
        totalTickets := totalTickets + t;
        p := nodes[p].rrprev;
        j := j - 1;
      }
      DealEnd(nodes, first, last, queue, ws, j, totalTickets);
    }

    /** pickProcess. */
    method PickProcess(random: int, ghost policy: Policy, ghost prio: seq<int>) returns (p: int)
      requires Valid() && Delivered(policy, nodes, queue, totalTickets, prio)
      ensures var k := Pick(Weights(policy, PriosOf(queue, prio)), random);
        p == if k == -1 then NIL else queue[k]
    {
      ghost var ws := Weights(policy, PriosOf(queue, prio));
      p := NIL;
      if totalTickets > 0 {
        var ticket := Rem(random, totalTickets);
        p := FindOwner(ticket, ws);
      }
    }

    /** Its loop along the queue. */
    method FindOwner(ticket: int, ghost ws: seq<nat>) returns (p: int)
      requires Valid() && |ws| == |queue| && Dealt(nodes, queue, ws)
      ensures var k := FirstOwner(ws, ticket, 0); p == if k == -1 then NIL else queue[k]
    {
      Places(nodes, first, last, queue);
      p := first;
      ghost var j := 0;
      while p != NIL
        invariant 0 <= j <= |queue|
        invariant if j == |queue| then p == NIL else p == queue[j] && 0 <= p < |nodes|
        invariant FirstOwner(ws, ticket, 0) == FirstOwner(ws, ticket, j)
        decreases |queue| - j
      {
        Prev(nodes, first, last, queue, j);
        assert DealtAt(nodes, queue, ws, j);
        if ticket >= nodes[p].first && ticket <= nodes[p].tickets + nodes[p].first - 1 {
          return;
        }
        p := nodes[p].rrnext;
        j := j + 1;
      }
    }
  }

  /** The tickets in the table are those the lottery prescribes for the queue. */
  ghost predicate Delivered(policy: Policy, nodes: seq<Node>, queue: seq<int>, total: int, prio: seq<int>)
  {
    && Dealt(nodes, queue, Weights(policy, PriosOf(queue, prio)))
    && total == Sum(Weights(policy, PriosOf(queue, prio)))
  }

  lemma NothingToDeliver(policy: Policy, nodes: seq<Node>, runnable: seq<bool>, prio: seq<int>)
    ensures Delivered(policy, nodes, [], 0, prio) && Kept(policy, [], runnable) == []
  {
    forall k ensures DealtAt(nodes, [], Weights(policy, PriosOf([], prio)), k) {
    }
  }

  /** The loop of deliverTicketsToFIFOProcs under FRR and FCFS, at position j of the queue. */
  ghost predicate FifoLoop(
    nodes: seq<Node>, first: int, last: int, queue: seq<int>, q0: seq<int>, j: int, total: int, runnable: seq<bool>)
  {
    && Linked(nodes, first, last, queue)
    && 0 <= j && FilteredBehind(queue, q0, j, runnable) && first == q0[0]
    && total == EXE_TICKETS * (|queue| - 1 - j)
    && TenBehind(nodes, queue, j)
  }

  lemma FifoStart(nodes: seq<Node>, first: int, last: int, queue: seq<int>, runnable: seq<bool>)
    requires Linked(nodes, first, last, queue) && queue != []
    ensures FifoLoop(nodes, first, last, queue, queue, |queue| - 1, 0, runnable)
    ensures 0 <= last < |nodes| && queue[|queue| - 1] == last
  {
    assert queue[..|queue|] == queue && queue[|queue|..] == [];
    Prev(nodes, first, last, queue, |queue| - 1);
    forall k | |queue| - 1 < k ensures TenAt(nodes, queue, k) {
    }
  }

  lemma FifoLinked(
    nodes: seq<Node>, first: int, last: int, queue: seq<int>, q0: seq<int>, j: int, total: int, runnable: seq<bool>)
    requires FifoLoop(nodes, first, last, queue, q0, j, total, runnable)
    ensures Linked(nodes, first, last, queue) && 0 <= j < |queue|
  {
  }

  lemma SplitAt(q0: seq<int>, j: nat, runnable: seq<bool>)
    requires j < |q0|
    ensures Filter(q0[j..], runnable)
      == if 0 <= q0[j] < |runnable| && runnable[q0[j]] then [q0[j]] + Filter(q0[j + 1..], runnable)
         else Filter(q0[j + 1..], runnable)
  {
    assert q0[j..][1..] == q0[j + 1..];
  }

  /** The queue while a loop stands at position j: the front as it was, the rest filtered. */
  ghost predicate FilteredBehind(queue: seq<int>, q0: seq<int>, j: int, runnable: seq<bool>)
  {
    -1 <= j < |queue| && j < |q0| && queue == q0[..j + 1] + Filter(q0[j + 1..], runnable)
  }

  lemma FilterStep(queue: seq<int>, q0: seq<int>, j: nat, runnable: seq<bool>)
    requires FilteredBehind(queue, q0, j, runnable)
    ensures queue[j] == q0[j] && queue[0] == q0[0]
    ensures if 0 <= queue[j] < |runnable| && runnable[queue[j]] then FilteredBehind(queue, q0, j - 1, runnable)
      else FilteredBehind(Without(queue, j), q0, j - 1, runnable) && Without(queue, j)[j..] == queue[j + 1..]
  {
    SplitAt(q0, j, runnable);
    hide Filter;
    assert q0[..j + 1] == q0[..j] + [q0[j]];
    var behind := Filter(q0[j + 1..], runnable);
    assert queue[..j] == q0[..j] && queue[j + 1..] == behind;
  }

  lemma FifoDrop(
    nodes: seq<Node>, first: int, last: int, queue: seq<int>, q0: seq<int>, j: nat, total: int, runnable: seq<bool>)
    requires FifoLoop(nodes, first, last, queue, q0, j, total, runnable)
    requires queue[j] != first && 0 <= queue[j] < |nodes| == |runnable| && !runnable[queue[j]]
    ensures 0 < j && nodes[queue[j]].rrprev == queue[j - 1] && 0 <= queue[j - 1] < |nodes|
    ensures |Without(queue, j)| == |queue| - 1 && Without(queue, j)[j - 1] == queue[j - 1]
    ensures var p := queue[j];
      FifoLoop(Unlinked(nodes, p), first, if p == last then nodes[p].rrprev else last, Without(queue, j), q0, j - 1,
               total, runnable)
  {
    FilterStep(queue, q0, j, runnable);
    hide FilteredBehind;
    Prev(nodes, first, last, queue, j);
    Prev(nodes, first, last, queue, j - 1);
    RemoveKeeps(nodes, first, last, queue, j);
    TenAfterRemove(nodes, queue, j);
  }

  lemma FifoDeal(
    nodes: seq<Node>, first: int, last: int, queue: seq<int>, q0: seq<int>, j: nat, total: int, runnable: seq<bool>)
    requires FifoLoop(nodes, first, last, queue, q0, j, total, runnable)
    requires queue[j] != first && 0 <= queue[j] < |nodes| == |runnable| && runnable[queue[j]]
    ensures 0 < j && nodes[queue[j]].rrprev == queue[j - 1] && 0 <= queue[j - 1] < |nodes|
    ensures var p := queue[j];
      FifoLoop(nodes[p := nodes[p].(first := total + 1, tickets := EXE_TICKETS)], first, last, queue, q0, j - 1,
               total + EXE_TICKETS, runnable)
  {
    FilterStep(queue, q0, j, runnable);
    hide FilteredBehind;
    Prev(nodes, first, last, queue, j);
    Prev(nodes, first, last, queue, j - 1);
    RetagKeeps(nodes, first, last, queue, queue[j], total + 1, EXE_TICKETS);
    TenAfterDeal(nodes, queue, j);
  }

  lemma FifoEnd(
    nodes: seq<Node>, first: int, last: int, queue: seq<int>, q0: seq<int>, j: nat, total: int,
    runnable: seq<bool>, prio: seq<int>)
    requires FifoLoop(nodes, first, last, queue, q0, j, total, runnable)
    requires queue[j] == first && 0 <= first < |nodes| == |prio|
    ensures var nodes' := nodes[first := nodes[first].(first := total + 1, tickets := EXE_TICKETS + FIFO_DIFFERENCE * total)];
      && Linked(nodes', first, last, queue)
      && queue == Kept(Fifo, q0, runnable)
      && Delivered(Fifo, nodes', queue, total + nodes'[first].tickets, prio)
  {
    assert queue[0] == q0[0] && j == 0;
    assert q0[..1] == [q0[0]];
    var nodes' := nodes[first := nodes[first].(first := total + 1, tickets := EXE_TICKETS + FIFO_DIFFERENCE * total)];
    RetagKeeps(nodes, first, last, queue, first, total + 1, EXE_TICKETS + FIFO_DIFFERENCE * total);
    TenBehindSame(nodes, nodes', queue, first);
    TensAreWeights(nodes', queue, PriosOf(queue, prio));
    HeadOutweighs(PriosOf(queue, prio));
  }

  lemma TenBehindSame(nodes: seq<Node>, nodes': seq<Node>, queue: seq<int>, p: int)
    requires queue != [] && queue[0] == p && Distinct(queue) && TenBehind(nodes, queue, 0)
    requires |nodes'| == |nodes| && forall o :: 0 <= o < |nodes| && o != p ==> nodes'[o] == nodes[o]
    ensures TenBehind(nodes', queue, 0)
  {
    forall k | 0 < k ensures TenAt(nodes', queue, k) {
      assert TenAt(nodes, queue, k);
    }
  }

  lemma LinkedAtNear(nodes: seq<Node>, first: int, last: int, queue: seq<int>, k: nat)
    requires Linked(nodes, first, last, queue) && k < |queue|
    ensures 0 <= queue[k] < |nodes|
    ensures var n := nodes[queue[k]];
      && (n.rrprev == NIL || 0 <= n.rrprev < |nodes|) && n.rrprev != queue[k]
      && (n.rrnext == NIL || 0 <= n.rrnext < |nodes|) && n.rrnext != queue[k]
  {
    assert LinkedAt(nodes, queue, k) && LinkedAt(nodes, queue, k - 1) && LinkedAt(nodes, queue, k + 1);
  }

  // ---- The loops of delivery under PRS

  ghost predicate DropLoop(
    nodes: seq<Node>, first: int, last: int, queue: seq<int>, q0: seq<int>, j: int, low: nat, mid: nat,
    runnable: seq<bool>, prio: seq<int>)
  {
    && Linked(nodes, first, last, queue)
    && FilteredBehind(queue, q0, j, runnable)
    && low == Low(PriosOf(queue[j + 1..], prio))
    && mid == Mid(PriosOf(queue[j + 1..], prio))
  }

  lemma DropStart(nodes: seq<Node>, first: int, last: int, queue: seq<int>, runnable: seq<bool>, prio: seq<int>)
    requires Linked(nodes, first, last, queue)
    ensures DropLoop(nodes, first, last, queue, queue, |queue| - 1, 0, 0, runnable, prio)
    ensures if queue == [] then last == NIL else last == queue[|queue| - 1] && 0 <= last < |nodes|
  {
    Places(nodes, first, last, queue);
    assert queue[..|queue|] == queue && queue[|queue|..] == [];
  }

  /** The process that the loop is at. */
  lemma DropAt(
    nodes: seq<Node>, first: int, last: int, queue: seq<int>, q0: seq<int>, j: int, low: nat, mid: nat,
    runnable: seq<bool>, prio: seq<int>)
    requires DropLoop(nodes, first, last, queue, q0, j, low, mid, runnable, prio)
    requires 0 <= j && |nodes| == |runnable| == |prio|
    ensures Linked(nodes, first, last, queue) && j < |queue|
    ensures 0 <= queue[j] < |nodes| && nodes[queue[j]].rrprev == if j == 0 then NIL else queue[j - 1]
    ensures 0 < j ==> 0 <= queue[j - 1] < |nodes|
    ensures |Without(queue, j)| == |queue| - 1 && (0 < j ==> Without(queue, j)[j - 1] == queue[j - 1])
  {
    Prev(nodes, first, last, queue, j);
    Places(nodes, first, last, queue);
    hide Linked, Filter, PriosOf;
  }

  /** It stays queued and is counted. */
  lemma DropKeep(
    nodes: seq<Node>, first: int, last: int, queue: seq<int>, q0: seq<int>, j: int, low: nat, mid: nat, low': nat,
    mid': nat, runnable: seq<bool>, prio: seq<int>)
    requires DropLoop(nodes, first, last, queue, q0, j, low, mid, runnable, prio)
    requires 0 <= j < |queue| && |nodes| == |runnable| == |prio| && 0 <= queue[j] < |nodes| && runnable[queue[j]]
    requires low' == low + (if prio[queue[j]] <= 0 then 1 else 0) && mid' == mid + (if prio[queue[j]] == 1 then 1 else 0)
    ensures DropLoop(nodes, first, last, queue, q0, j - 1, low', mid', runnable, prio)
  {
    FilterStep(queue, q0, j, runnable);
    DropCounts(queue, j, prio);
    hide Linked, FilteredBehind, PriosOf;
  }

  /** It is taken out. */
  lemma DropRemove(
    nodes: seq<Node>, first: int, last: int, queue: seq<int>, q0: seq<int>, j: int, low: nat, mid: nat,
    runnable: seq<bool>, prio: seq<int>)
    requires DropLoop(nodes, first, last, queue, q0, j, low, mid, runnable, prio)
    requires 0 <= j && |nodes| == |runnable| == |prio|
    requires j < |queue| && 0 <= queue[j] < |nodes| && !runnable[queue[j]]
    ensures var p := queue[j];
      DropLoop(Unlinked(nodes, p), if p == first then nodes[p].rrnext else first,
               if p == last then nodes[p].rrprev else last, Without(queue, j), q0, j - 1, low, mid, runnable, prio)
  {
    FilterStep(queue, q0, j, runnable);
    RemoveKeeps(nodes, first, last, queue, j);
    hide Linked, Unlinked, FilteredBehind, PriosOf, Without;
  }

  lemma DropCounts(queue: seq<int>, j: nat, prio: seq<int>)
    requires j < |queue| && 0 <= queue[j] < |prio|
    ensures Low(PriosOf(queue[j..], prio)) == (if prio[queue[j]] <= 0 then 1 else 0) + Low(PriosOf(queue[j + 1..], prio))
    ensures Mid(PriosOf(queue[j..], prio)) == (if prio[queue[j]] == 1 then 1 else 0) + Mid(PriosOf(queue[j + 1..], prio))
  {
    var behind := PriosOf(queue[j..], prio);
    assert behind[0] == prio[queue[j]] && behind[1..] == PriosOf(queue[j + 1..], prio);
  }

  lemma DropEnd(
    nodes: seq<Node>, first: int, last: int, queue: seq<int>, q0: seq<int>, j: int, low: nat, mid: nat,
    runnable: seq<bool>, prio: seq<int>)
    requires DropLoop(nodes, first, last, queue, q0, j, low, mid, runnable, prio) && j == -1
    ensures queue == Filter(q0, runnable)
    ensures low == Low(PriosOf(queue, prio)) && mid == Mid(PriosOf(queue, prio))
  {
    assert q0[0..] == q0 && queue[0..] == queue && q0[..0] == [];
  }

  ghost predicate DealLoop(
    nodes: seq<Node>, first: int, last: int, queue: seq<int>, ws: seq<nat>, j: int, total: int)
  {
    && Linked(nodes, first, last, queue)
    && |ws| == |queue| && -1 <= j < |queue|
    && total == Sum(ws[j + 1..])
    && forall k {:trigger DealtAt(nodes, queue, ws, k)} :: j < k ==> DealtAt(nodes, queue, ws, k)
  }

  lemma DealStart(nodes: seq<Node>, first: int, last: int, queue: seq<int>, ws: seq<nat>)
    requires Linked(nodes, first, last, queue) && |ws| == |queue|
    ensures DealLoop(nodes, first, last, queue, ws, |queue| - 1, 0)
    ensures queue != [] ==> 0 <= last < |nodes|
  {
    Places(nodes, first, last, queue);
    assert ws[|queue|..] == [];
    forall k | |queue| - 1 < k ensures DealtAt(nodes, queue, ws, k) {
    }
  }

  lemma DealStep(nodes: seq<Node>, first: int, last: int, queue: seq<int>, ws: seq<nat>, j: int, total: int)
    requires DealLoop(nodes, first, last, queue, ws, j, total) && 0 <= j
    ensures 0 <= queue[j] < |nodes| && nodes[queue[j]].rrprev == if j == 0 then NIL else queue[j - 1]
    ensures 0 < j ==> 0 <= queue[j - 1] < |nodes|
    ensures var p := queue[j];
      DealLoop(nodes[p := nodes[p].(first := total + 1, tickets := ws[j])], first, last, queue, ws, j - 1, total + ws[j])
  {
    var p := queue[j];
    Prev(nodes, first, last, queue, j);
    Places(nodes, first, last, queue);
    RetagKeeps(nodes, first, last, queue, p, total + 1, ws[j]);
    var nodes' := nodes[p := nodes[p].(first := total + 1, tickets := ws[j])];
    assert ws[j..][1..] == ws[j + 1..];
    forall k | j - 1 < k ensures DealtAt(nodes', queue, ws, k) {
      assert k != j ==> DealtAt(nodes, queue, ws, k);
    }
  }

  lemma DealEnd(nodes: seq<Node>, first: int, last: int, queue: seq<int>, ws: seq<nat>, j: int, total: int)
    requires DealLoop(nodes, first, last, queue, ws, j, total) && j == -1
    ensures Dealt(nodes, queue, ws) && total == Sum(ws)
  {
    assert ws[0..] == ws;
    forall k ensures DealtAt(nodes, queue, ws, k) {
      assert -1 < k ==> DealtAt(nodes, queue, ws, k);
    }
  }
}
