/** Tickets of the lottery scheduler in proc.c: how many each queued process gets, which it owns,
    and whom a draw selects.  A queue is listed from rrqueue.first to rrqueue.last; tickets are
    dealt from the last process to the first.
 */
module Lottery {

  const EXE_TICKETS := 10
  const FIFO_DIFFERENCE := 100
  const NPROC := 64
  const INT_MAX := 0x7FFF_FFFF

  datatype Policy = Fifo | Priority

  /** Processes of a priority class. */
  function Low(prios: seq<int>): nat
  {
    if prios == [] then 0 else (if prios[0] <= 0 then 1 else 0) + Low(prios[1..])
  }

  function Mid(prios: seq<int>): nat
  {
    if prios == [] then 0 else (if prios[0] == 1 then 1 else 0) + Mid(prios[1..])
  }

  function High(prios: seq<int>): nat
  {
    if prios == [] then 0 else (if prios[0] >= 2 then 1 else 0) + High(prios[1..])
  }

  /** Tickets of a process of the given priority, low processes in class 1 and mid in class 2. */
  function ClassTickets(prio: int, low: nat, mid: nat): (w: nat)
  {
    if prio <= 0 then EXE_TICKETS
    else if prio == 1 then EXE_TICKETS + EXE_TICKETS * low * FIFO_DIFFERENCE
    else EXE_TICKETS + EXE_TICKETS * (low + mid * FIFO_DIFFERENCE) * FIFO_DIFFERENCE
  }

  /** What deliverTicketsToFIFOProcs gives to each process. */
  function Weights(policy: Policy, prios: seq<int>): (ws: seq<nat>)
    ensures |ws| == |prios|
    ensures forall k :: 0 <= k < |ws| ==> ws[k] >= EXE_TICKETS
  {
    match policy
    case Fifo =>
      seq(|prios|, k => if k == 0 then EXE_TICKETS + FIFO_DIFFERENCE * (EXE_TICKETS * (|prios| - 1)) else EXE_TICKETS)
    case Priority =>
      seq(|prios|, k requires 0 <= k < |prios| => ClassTickets(prios[k], Low(prios), Mid(prios)))
  }

  function Sum(ws: seq<nat>): nat
  {
    if ws == [] then 0 else ws[0] + Sum(ws[1..])
  }

  /** The first ticket of the k-th process: all behind it were served before. */
  function First(ws: seq<nat>, k: nat): nat
    requires k < |ws|
  {
    Sum(ws[k + 1..]) + 1
  }

  predicate Owns(ws: seq<nat>, k: nat, t: int)
    requires k < |ws|
  {
    First(ws, k) <= t <= First(ws, k) + ws[k] - 1
  }

  lemma {:induction false} SumConcat(a: seq<nat>, b: seq<nat>)
    ensures Sum(a + b) == Sum(a) + Sum(b)
  {
    if a == [] {
      assert a + b == b;
    } else {
      SumConcat(a[1..], b);
      assert (a + b)[1..] == a[1..] + b;
    }
  }

  /** Nobody's tickets lie above the total, and later in the queue means lower tickets. */
  lemma {:induction false} Ordered(ws: seq<nat>, i: nat, j: nat)
    requires i < j < |ws|
    ensures First(ws, j) + ws[j] <= First(ws, i)
    ensures First(ws, i) + ws[i] - 1 <= Sum(ws)
  {
    SumConcat(ws[i + 1..j], ws[j..]);
    assert ws[i + 1..j] + ws[j..] == ws[i + 1..];
    assert ws[j..][1..] == ws[j + 1..];
    Bounded(ws, i);
  }

  lemma Bounded(ws: seq<nat>, i: nat)
    requires i < |ws|
    ensures 1 <= First(ws, i) && First(ws, i) + ws[i] - 1 <= Sum(ws)
  {
    SumConcat(ws[..i], ws[i..]);
    assert ws[..i] + ws[i..] == ws;
    assert ws[i..][1..] == ws[i + 1..];
  }

  lemma OneOwner(ws: seq<nat>, i: nat, j: nat, t: int)
    requires i < |ws| && j < |ws| && Owns(ws, i, t) && Owns(ws, j, t)
    ensures i == j
  {
    hide First;
    if i < j { Ordered(ws, i, j); }
    if j < i { Ordered(ws, j, i); }
  }

  lemma OwnsTail(ws: seq<nat>, i: nat, t: int)
    requires i + 1 < |ws|
    ensures Owns(ws[1..], i, t) <==> Owns(ws, i + 1, t)
  {
    hide Sum;
    assert ws[1..][i + 1..] == ws[i + 1 + 1..];
  }

  lemma {:induction false} OwnerOf(ws: seq<nat>, t: int) returns (k: nat)
    requires 1 <= t <= Sum(ws)
    ensures k < |ws| && Owns(ws, k, t)
  {
    if t > Sum(ws[1..]) {
      k := 0;
    } else {
      var i := OwnerOf(ws[1..], t);
      OwnsTail(ws, i, t);
      k := i + 1;
    }
  }

  /** Tickets tile 1 .. total: each has exactly one owner, no other number has any. */
  lemma TicketsTile(ws: seq<nat>, t: int) returns (k: nat)
    ensures 1 <= t <= Sum(ws) ==> k < |ws| && Owns(ws, k, t)
    ensures forall j :: 0 <= j < |ws| && Owns(ws, j, t) ==> 1 <= t <= Sum(ws) && j == k
  {
    k := 0;
    if 1 <= t <= Sum(ws) { k := OwnerOf(ws, t); }
    forall j | 0 <= j < |ws| && Owns(ws, j, t) ensures 1 <= t <= Sum(ws) && j == k {
      Bounded(ws, j);
      if 1 <= t <= Sum(ws) { OneOwner(ws, j, k, t); }
    }
  }

  // ---- The draw

  /** Remainder as C computes it. */
  function Rem(a: int, b: int): (r: int)
    requires b > 0
    ensures -b < r < b
  {
    if a >= 0 then a % b else -((-a) % b)
  }

  /** It is C's: the quotient truncates, so the remainder has the sign of a. */
  lemma RemIsC(a: int, b: int) returns (q: int)
    requires b > 0
    ensures a == q * b + Rem(a, b) && (Rem(a, b) == 0 || (Rem(a, b) > 0 <==> a > 0))
  {
    q := if a >= 0 then a / b else -((-a) / b);
  }

  /** Whom a random number selects: the first process whose range holds the ticket. */
  function Pick(ws: seq<nat>, random: int): (k: int)
    ensures -1 <= k < |ws|
  {
    if Sum(ws) == 0 then -1 else FirstOwner(ws, Rem(random, Sum(ws)), 0)
  }

  function FirstOwner(ws: seq<nat>, t: int, k: nat): (r: int)
    requires k <= |ws|
    ensures r == -1 || (k <= r < |ws| && Owns(ws, r, t))
    ensures r == -1 ==> forall j :: k <= j < |ws| ==> !Owns(ws, j, t)
    decreases |ws| - k
  {
    if k == |ws| then -1 else if Owns(ws, k, t) then k else FirstOwner(ws, t, k + 1)
  }

  /** A draw selects the owner of its ticket; zero and negative remainders select nobody. */
  lemma PickSelectsOwner(ws: seq<nat>, random: int, k: nat)
    requires k < |ws| && 0 < Sum(ws)
    ensures Pick(ws, random) == k <==> Owns(ws, k, Rem(random, Sum(ws)))
    ensures Pick(ws, random) == -1 <==> Rem(random, Sum(ws)) <= 0
  {
    var t := Rem(random, Sum(ws));
    var owner := TicketsTile(ws, t);
  }

  /** Every queued process can win: all its tickets, but the very last of all, can be drawn. */
  lemma EveryoneCanWin(ws: seq<nat>, k: nat) returns (random: int)
    requires k < |ws| && forall i :: 0 <= i < |ws| ==> ws[i] >= EXE_TICKETS
    ensures 0 <= random < Sum(ws) && Pick(ws, random) == k
  {
    Bounded(ws, k);
    random := First(ws, k);
    RemOfSmall(random, Sum(ws));
    PickSelectsOwner(ws, random, k);
  }

  lemma RemOfSmall(a: int, b: int)
    requires 0 <= a < b
    ensures Rem(a, b) == a
  {
  }

  // ---- Weights

  lemma {:induction false} SumOfEqual(ws: seq<nat>, w: nat)
    requires forall k :: 0 <= k < |ws| ==> ws[k] == w
    ensures Sum(ws) == |ws| * w
  {
    if ws != [] {
      SumOfEqual(ws[1..], w);
    }
  }

  /** First come: the head holds more than a hundred times all others together. */
  lemma HeadOutweighs(prios: seq<int>)
    requires prios != []
    ensures var ws := Weights(Fifo, prios); ws[0] > FIFO_DIFFERENCE * Sum(ws[1..])
    ensures Sum(Weights(Fifo, prios)) == EXE_TICKETS + (FIFO_DIFFERENCE + 1) * EXE_TICKETS * (|prios| - 1)
  {
    var ws := Weights(Fifo, prios);
    SumOfEqual(ws[1..], EXE_TICKETS);
  }

  /** The priority class of a process: 0 is the lowest. */
  function ClassNo(prio: int): int
  {
    if prio <= 0 then 0 else if prio == 1 then 1 else 2
  }

  function ClassSize(prios: seq<int>, c: int): nat
  {
    if c == 0 then Low(prios) else if c == 1 then Mid(prios) else High(prios)
  }

  /** The tickets that the processes of class c hold together. */
  function HeldBy(prios: seq<int>, ws: seq<nat>, c: int): nat
    requires |ws| == |prios|
  {
    if prios == [] then 0 else (if ClassNo(prios[0]) == c then ws[0] else 0) + HeldBy(prios[1..], ws[1..], c)
  }

  lemma {:induction false} ClassHolds(prios: seq<int>, ws: seq<nat>, c: int, w: nat)
    requires |ws| == |prios| && 0 <= c <= 2
    requires forall k :: 0 <= k < |ws| && ClassNo(prios[k]) == c ==> ws[k] == w
    ensures HeldBy(prios, ws, c) == ClassSize(prios, c) * w
  {
    if prios != [] {
      ClassHolds(prios[1..], ws[1..], c, w);
      var n := ClassSize(prios[1..], c);
      assert (n + 1) * w == n * w + w;
    }
  }

  /** One process of a class above the lowest has over a hundred times the tickets that the whole lowest class
      holds.  One of the top class has so many times what the whole class below it holds exactly when a lower
      class is empty or both hold one process. */
  lemma ClassesOutweigh(prios: seq<int>, i: nat)
    requires i < |prios|
    ensures var ws := Weights(Priority, prios); var low, mid := Low(prios), Mid(prios);
      && (prios[i] >= 1 ==> ws[i] > FIFO_DIFFERENCE * HeldBy(prios, ws, 0))
      && (prios[i] >= 2 ==>
            (ws[i] > FIFO_DIFFERENCE * HeldBy(prios, ws, 1) <==> low == 0 || mid == 0 || (low == 1 && mid == 1)))
      && (prios[i] >= 2 ==> forall j :: 0 <= j < |prios| && prios[j] == 1 ==> ws[i] > ws[j])
  {
    var ws := Weights(Priority, prios);
    var low, mid := Low(prios), Mid(prios);
    ClassHolds(prios, ws, 0, EXE_TICKETS);
    ClassHolds(prios, ws, 1, ClassTickets(1, low, mid));
    if prios[i] >= 2 {
      TopOutweighsMidIff(prios[i], low, mid);
      forall j | 0 <= j < |prios| && prios[j] == 1 ensures ws[i] > ws[j] { MidCounts(prios, j); }
    }
  }

  lemma {:induction false} MidCounts(prios: seq<int>, j: nat)
    requires j < |prios| && prios[j] == 1
    ensures Mid(prios) >= 1
  {
    if prios[0] != 1 {
      MidCounts(prios[1..], j - 1);
    }
  }

  /** The top class is not as far above class 2 as class 2 is above class 1. */
  lemma TopOutweighsMidIff(prio: int, low: nat, mid: nat)
    requires prio >= 2
    ensures ClassTickets(prio, low, mid) > FIFO_DIFFERENCE * (mid * ClassTickets(1, low, mid))
      <==> low == 0 || mid == 0 || (low == 1 && mid == 1)
  {
    var both := low * mid;
    assert mid * ClassTickets(1, low, mid) == 10 * mid + 1000 * both by {
      assert mid * (10 + 1000 * low) == 10 * mid + 1000 * (low * mid);
    }
    if low >= 2 && mid >= 1 {
      Product(low, mid);
    } else if low >= 1 && mid >= 2 {
      Product(mid, low);
    }
  }

  lemma Product(a: nat, b: nat)
    requires a >= 2 && b >= 1
    ensures a * b >= a && a * b >= 2 * b
  {
    assert a * b == a + a * (b - 1);
    assert a * b == 2 * b + (a - 2) * b;
  }

  function ClassOf(prio: int, w0: nat, w1: nat, w2: nat): nat
  {
    if prio <= 0 then w0 else if prio == 1 then w1 else w2
  }

  function ClassSeq(prios: seq<int>, w0: nat, w1: nat, w2: nat): seq<nat>
  {
    if prios == [] then [] else [ClassOf(prios[0], w0, w1, w2)] + ClassSeq(prios[1..], w0, w1, w2)
  }

  lemma {:induction false} ClassesSum(prios: seq<int>, w0: nat, w1: nat, w2: nat)
    ensures Low(prios) + Mid(prios) + High(prios) == |prios|
    ensures Sum(ClassSeq(prios, w0, w1, w2)) == Low(prios) * w0 + Mid(prios) * w1 + High(prios) * w2
  {
    if prios != [] {
      var rest := prios[1..];
      ClassesSum(rest, w0, w1, w2);
      assert ClassSeq(prios, w0, w1, w2)[1..] == ClassSeq(rest, w0, w1, w2);
      assert (Low(rest) + 1) * w0 == Low(rest) * w0 + w0;
      assert (Mid(rest) + 1) * w1 == Mid(rest) * w1 + w1;
      assert (High(rest) + 1) * w2 == High(rest) * w2 + w2;
    }
  }

  lemma {:induction false} ClassSeqAt(prios: seq<int>, w0: nat, w1: nat, w2: nat)
    ensures |ClassSeq(prios, w0, w1, w2)| == |prios|
    ensures forall k :: 0 <= k < |prios| ==> ClassSeq(prios, w0, w1, w2)[k] == ClassOf(prios[k], w0, w1, w2)
  {
    if prios != [] {
      ClassSeqAt(prios[1..], w0, w1, w2);
    }
  }

  lemma TotalByClass(prios: seq<int>)
    ensures var low, mid := Low(prios), Mid(prios);
      Sum(Weights(Priority, prios)) == low * ClassTickets(0, low, mid) + mid * ClassTickets(1, low, mid)
                                       + High(prios) * ClassTickets(2, low, mid)
  {
    var low, mid := Low(prios), Mid(prios);
    var w0, w1, w2 := ClassTickets(0, low, mid), ClassTickets(1, low, mid), ClassTickets(2, low, mid);
    ClassSeqAt(prios, w0, w1, w2);
    assert Weights(Priority, prios) == ClassSeq(prios, w0, w1, w2);
    ClassesSum(prios, w0, w1, w2);
  }

  /** Conservation, in numbers: what each class holds, and that it adds up to the total. */
  lemma PriorityTotal(prios: seq<int>)
    ensures var ws := Weights(Priority, prios); var low, mid, high := Low(prios), Mid(prios), High(prios);
      && HeldBy(prios, ws, 0) == 10 * low
      && HeldBy(prios, ws, 1) == 10 * mid + 1000 * (low * mid)
      && HeldBy(prios, ws, 2) == 10 * high + 1000 * (low * high) + 100000 * (mid * high)
      && Sum(ws) == HeldBy(prios, ws, 0) + HeldBy(prios, ws, 1) + HeldBy(prios, ws, 2)
  {
    var ws := Weights(Priority, prios);
    var low, mid, high := Low(prios), Mid(prios), High(prios);
    ClassHolds(prios, ws, 0, ClassTickets(0, low, mid));
    ClassHolds(prios, ws, 1, ClassTickets(1, low, mid));
    ClassHolds(prios, ws, 2, ClassTickets(2, low, mid));
    ClassNumbers(low, mid, high);
    TotalByClass(prios);
    hide *;
    SizesAre(prios);
  }

  lemma SizesAre(prios: seq<int>)
    ensures ClassSize(prios, 0) == Low(prios) && ClassSize(prios, 1) == Mid(prios) && ClassSize(prios, 2) == High(prios)
  {
  }

  lemma ClassNumbers(low: nat, mid: nat, high: nat)
    ensures low * ClassTickets(0, low, mid) == 10 * low
    ensures mid * ClassTickets(1, low, mid) == 10 * mid + 1000 * (low * mid)
    ensures high * ClassTickets(2, low, mid) == 10 * high + 1000 * (low * high) + 100000 * (mid * high)
  {
    assert mid * (10 + 1000 * low) == 10 * mid + 1000 * (low * mid);
    assert high * (10 + 1000 * low + 100000 * mid) == 10 * high + 1000 * (low * high) + 100000 * (mid * high) by {
      assert high * (1000 * low) == 1000 * (low * high);
      assert high * (100000 * mid) == 100000 * (mid * high);
    }
  }

  /** With at most NPROC processes no ticket count exceeds a 32-bit int. */
  lemma TotalFits(policy: Policy, prios: seq<int>)
    requires |prios| <= NPROC
    ensures Sum(Weights(policy, prios)) <= INT_MAX
  {
    if policy == Fifo {
      if prios != [] {
        HeadOutweighs(prios);
      }
    } else {
      var low, mid, high := Low(prios), Mid(prios), High(prios);
      var w0, w1, w2 := ClassTickets(0, low, mid), ClassTickets(1, low, mid), ClassTickets(2, low, mid);
      TotalByClass(prios);
      ClassesSum(prios, w0, w1, w2);
      ThreeClasses(low, mid, high, w0, w1, w2, 10 + 1000 * NPROC + 100000 * NPROC);
    }
  }

  lemma ThreeClasses(low: nat, mid: nat, high: nat, w0: nat, w1: nat, w2: nat, top: nat)
    requires low + mid + high <= NPROC && w0 <= top && w1 <= top && w2 <= top
    ensures low * w0 + mid * w1 + high * w2 <= NPROC * top
  {
    TimesAtMost(low, w0, top);
    TimesAtMost(mid, w1, top);
    TimesAtMost(high, w2, top);
    assert low * top + mid * top + high * top == (low + mid + high) * top;
    TimesAtMost(top, low + mid + high, NPROC);
  }

  lemma TimesAtMost(n: nat, w: nat, top: nat)
    requires w <= top
    ensures n * w <= n * top
  {
    assert n * (top - w) >= 0;
  }
}
