// The wait-for relation kept by the mailbox server.
//
// Local id i is a process known to the server; e[i] is the first mailbox it
// waits for (`susContext[i]->suspened_for[0]`), or -1 when it waits for none.
// Mailbox ids and local ids share one numbering, so e is a graph with at most
// one edge out of each node.
module WaitGraph {
  import opened Options

  ghost predicate IsGraph(e: seq<int>) {
    forall i :: 0 <= i < |e| ==> -1 <= e[i] < |e|
  }

  // The node reached from i by following k edges; -1 once the chain has ended.
  ghost function Hop(e: seq<int>, i: int, k: nat): (r: int)
    requires IsGraph(e) && -1 <= i < |e|
    ensures -1 <= r < |e|
    decreases k
  {
    if k == 0 || i == -1 then i else Hop(e, e[i], k - 1)
  }

  ghost predicate Acyclic(e: seq<int>)
    requires IsGraph(e)
  {
    forall i, k: nat {:trigger Hop(e, i, k)} :: 0 <= i < |e| && k >= 1 ==> Hop(e, i, k) != i
  }

  // The chain from l comes back to l.
  ghost predicate OnCycle(e: seq<int>, l: int)
    requires IsGraph(e) && 0 <= l < |e|
  {
    exists k: nat {:trigger Hop(e, l, k)} :: k >= 1 && Hop(e, l, k) == l
  }

  // Every cycle passes through l: without l's edge there is none.
  ghost predicate OnlyThrough(e: seq<int>, l: int)
    requires IsGraph(e) && 0 <= l < |e|
  {
    Acyclic(e[l := -1])
  }

  // The same, said of the cycles themselves.
  ghost predicate EveryCyclePasses(e: seq<int>, l: int)
    requires IsGraph(e) && 0 <= l < |e|
  {
    forall i, k: nat {:trigger Hop(e, i, k)} :: 0 <= i < |e| && k >= 1 && Hop(e, i, k) == i ==> Passes(e, i, k, l)
  }

  ghost predicate Passes(e: seq<int>, i: int, k: nat, x: int)
    requires IsGraph(e) && 0 <= i < |e|
  {
    exists j: nat {:trigger Hop(e, i, j)} :: j < k && Hop(e, i, j) == x
  }

  // e with the edges of the given nodes taken out.
  ghost function Cleared(e: seq<int>, ids: seq<int>): (r: seq<int>)
    ensures |r| == |e|
    ensures IsGraph(e) ==> IsGraph(r)
    ensures forall i :: 0 <= i < |e| ==> r[i] == if i in ids then -1 else e[i]
  {
    seq(|e|, i requires 0 <= i < |e| => if i in ids then -1 else e[i])
  }

  // ---------------------------------------------------------------- chains

  lemma {:induction false} HopAdd(e: seq<int>, i: int, j: nat, k: nat)
    requires IsGraph(e) && -1 <= i < |e|
    ensures Hop(e, Hop(e, i, j), k) == Hop(e, i, j + k)
    decreases j
  {
    if j > 0 && i != -1 {
      HopAdd(e, e[i], j - 1, k);
    }
  }

  lemma HopNext(e: seq<int>, i: int, k: nat)
    requires IsGraph(e) && -1 <= i < |e|
    ensures Hop(e, i, k) != -1 ==> Hop(e, i, k + 1) == e[Hop(e, i, k)]
  {
    HopAdd(e, i, k, 1);
    if Hop(e, i, k) != -1 {
      assert Hop(e, Hop(e, i, k), 1) == Hop(e, e[Hop(e, i, k)], 0);
    }
  }

  // Taking edges out shortens chains and does nothing else to them.
  lemma {:induction false} HopInSubgraph(e: seq<int>, d: seq<int>, i: int, k: nat)
    requires IsGraph(e) && IsGraph(d) && |e| == |d| && -1 <= i < |e|
    requires forall x :: 0 <= x < |e| ==> d[x] == e[x] || d[x] == -1
    ensures Hop(d, i, k) == -1 || Hop(d, i, k) == Hop(e, i, k)
    ensures Hop(d, i, k) != -1 ==> forall j: nat {:trigger Hop(e, i, j)} :: j < k ==>
              0 <= Hop(e, i, j) && d[Hop(e, i, j)] == e[Hop(e, i, j)] != -1
    decreases k
  {
    if k > 0 && i != -1 {
      if d[i] != -1 {
        HopInSubgraph(e, d, e[i], k - 1);
        if Hop(d, i, k) != -1 {
          forall j: nat | j < k
            ensures 0 <= Hop(e, i, j) && d[Hop(e, i, j)] == e[Hop(e, i, j)] != -1
          {
            if j > 0 { assert Hop(e, i, j) == Hop(e, e[i], j - 1); }
          }
        }
      }
    }
  }

  // Conversely, a chain all of whose edges are kept is the same chain.
  lemma {:induction false} HopKept(e: seq<int>, d: seq<int>, i: int, k: nat)
    requires IsGraph(e) && IsGraph(d) && |e| == |d| && -1 <= i < |e|
    requires forall j: nat {:trigger Hop(e, i, j)} :: j < k && Hop(e, i, j) != -1 ==> d[Hop(e, i, j)] == e[Hop(e, i, j)]
    ensures Hop(d, i, k) == Hop(e, i, k)
    decreases k
  {
    if k > 0 && i != -1 {
      assert Hop(e, i, 0) == i;
      forall j: nat | j < k - 1 && Hop(e, e[i], j) != -1
        ensures d[Hop(e, e[i], j)] == e[Hop(e, e[i], j)]
      {
        assert Hop(e, i, j + 1) == Hop(e, e[i], j);
      }
      HopKept(e, d, e[i], k - 1);
    }
  }

  lemma {:induction false} SubgraphAcyclic(e: seq<int>, d: seq<int>)
    requires IsGraph(e) && IsGraph(d) && |e| == |d|
    requires forall x :: 0 <= x < |e| ==> d[x] == e[x] || d[x] == -1
    requires Acyclic(e)
    ensures Acyclic(d)
  {
    forall i, k: nat | 0 <= i < |d| && k >= 1
      ensures Hop(d, i, k) != i
    {
      HopInSubgraph(e, d, i, k);
    }
  }

  // A cycle anywhere, in a graph whose cycles all pass l, is a cycle at l.
  lemma {:induction false} CycleMeets(e: seq<int>, l: int, i: int, k: nat) returns (j: nat)
    requires IsGraph(e) && 0 <= l < |e| && 0 <= i < |e| && k >= 1
    requires OnlyThrough(e, l) && Hop(e, i, k) == i
    ensures j < k && Hop(e, i, j) == l && Hop(e, l, k) == l
  {
    if forall j: nat {:trigger Hop(e, i, j)} :: j < k ==> Hop(e, i, j) != l {
      HopKept(e, e[l := -1], i, k);
    }
    j :| j < k && Hop(e, i, j) == l;
    HopAdd(e, i, j, k);
    HopAdd(e, i, k, j);
  }

  lemma {:induction false} OnlyThroughMeans(e: seq<int>, l: int)
    requires IsGraph(e) && 0 <= l < |e|
    ensures OnlyThrough(e, l) <==> EveryCyclePasses(e, l)
  {
    var d := e[l := -1];
    if OnlyThrough(e, l) {
      forall i, k: nat | 0 <= i < |e| && k >= 1 && Hop(e, i, k) == i
        ensures Passes(e, i, k, l)
      {
        var j := CycleMeets(e, l, i, k);
      }
    }
    if EveryCyclePasses(e, l) {
      forall i, k: nat | 0 <= i < |d| && k >= 1
        ensures Hop(d, i, k) != i
      {
        HopInSubgraph(e, d, i, k);
      }
    }
  }

  // A new edge out of l closes a cycle exactly when l's own chain comes back.
  lemma {:induction false} NewEdge(e: seq<int>, l: int)
    requires IsGraph(e) && 0 <= l < |e| && OnlyThrough(e, l)
    ensures Acyclic(e) <==> !OnCycle(e, l)
  {
    if !OnCycle(e, l) {
      forall i, k: nat | 0 <= i < |e| && k >= 1
        ensures Hop(e, i, k) != i
      {
        if Hop(e, i, k) == i {
          var j := CycleMeets(e, l, i, k);
        }
      }
    }
  }

  // No circle of waiting processes, read off the sequence of its members.
  lemma {:induction false} NoCircle(e: seq<int>, c: seq<int>)
    requires IsGraph(e) && Acyclic(e) && |c| >= 1
    requires forall k :: 0 <= k < |c| ==> 0 <= c[k] < |e|
    ensures exists k :: 0 <= k < |c| && e[c[k]] != c[if k + 1 < |c| then k + 1 else 0]
  {
    if forall k :: 0 <= k < |c| ==> e[c[k]] == c[if k + 1 < |c| then k + 1 else 0] {
      Around(e, c, |c| - 1);
      HopNext(e, c[0], |c| - 1);
    }
  }

  lemma {:induction false} Around(e: seq<int>, c: seq<int>, m: nat)
    requires IsGraph(e) && m < |c|
    requires forall k :: 0 <= k < |c| ==> 0 <= c[k] < |e|
    requires forall k :: 0 <= k < m ==> e[c[k]] == c[k + 1]
    ensures Hop(e, c[0], m) == c[m]
  {
    if m > 0 {
      Around(e, c, m - 1);
      HopNext(e, c[0], m - 1);
    }
  }

  // ------------------------------------------------------------- the cycle at l

  ghost function Least(e: seq<int>, l: int, from: nat, w: nat): (n: nat)
    requires IsGraph(e) && 0 <= l < |e|
    requires from <= w && Hop(e, l, w) == l
    ensures from <= n <= w && Hop(e, l, n) == l
    ensures forall j: nat {:trigger Hop(e, l, j)} :: from <= j < n ==> Hop(e, l, j) != l
    decreases w - from
  {
    if Hop(e, l, from) == l then from else Least(e, l, from + 1, w)
  }

  // Number of processes on the cycle through l.
  ghost function CycleLen(e: seq<int>, l: int): (n: nat)
    requires IsGraph(e) && 0 <= l < |e| && OnCycle(e, l)
    ensures n >= 1 && Hop(e, l, n) == l
    ensures forall j: nat {:trigger Hop(e, l, j)} :: 1 <= j < n ==> Hop(e, l, j) != l
  {
    var w: nat :| w >= 1 && Hop(e, l, w) == l;
    Least(e, l, 1, w)
  }

  lemma {:induction false} CycleDistinct(e: seq<int>, l: int, a: nat, b: nat)
    requires IsGraph(e) && 0 <= l < |e| && OnCycle(e, l)
    requires a < b < CycleLen(e, l)
    ensures Hop(e, l, a) != Hop(e, l, b) && Hop(e, l, a) != -1
  {
    var n := CycleLen(e, l);
    HopAdd(e, l, a, n - a);
    if Hop(e, l, a) == Hop(e, l, b) {
      HopAdd(e, l, a, n - b);
      HopAdd(e, l, b, n - b);
    }
  }

  lemma {:induction false} CycleNodes(e: seq<int>, l: int, k: nat)
    requires IsGraph(e) && 0 <= l < |e| && OnCycle(e, l)
    ensures 0 <= Hop(e, l, k) < |e|
    ensures e[Hop(e, l, k)] == Hop(e, l, k + 1)
    ensures k >= CycleLen(e, l) ==> Hop(e, l, k) == Hop(e, l, k - CycleLen(e, l))
    decreases k
  {
    var n := CycleLen(e, l);
    if k >= n {
      HopAdd(e, l, n, k - n);
      CycleNodes(e, l, k - n);
    } else {
      HopAdd(e, l, k, n - k);
    }
    HopNext(e, l, k);
  }

  // ------------------------------------------------- whom the deadlock notice wakes

  // Hops from l to the process woken after i others.
  function Turn(oneAdvance: bool, i: nat): nat {
    if oneAdvance then i + 1 else 2 * i + 1
  }

  ghost function Visited(oneAdvance: bool, e: seq<int>, l: int, m: nat): (r: seq<int>)
    requires IsGraph(e) && 0 <= l < |e|
    ensures |r| == m && forall k :: 0 <= k < m ==> r[k] == Hop(e, l, Turn(oneAdvance, k))
  {
    seq(m, k requires 0 <= k < m => Hop(e, l, Turn(oneAdvance, k)))
  }

  // The processes `indicate_deadlock(l)` wakes, in order.  With one cursor
  // advance per turn these are all the others on the cycle.  The text advances
  // twice after each wake-up, so it wakes every second one, and on an odd cycle
  // of three or more it runs past l, meets a process it has already cleared and
  // reads context -1: no outcome.  A process that waits for itself is woken.
  ghost function Woken(oneAdvance: bool, e: seq<int>, l: int): (r: Option<seq<int>>)
    requires IsGraph(e) && 0 <= l < |e| && OnCycle(e, l)
  {
    var n := CycleLen(e, l);
    if n == 1 then Some([l])
    else if oneAdvance then Some(Visited(true, e, l, n - 1))
    else if n % 2 == 0 then Some(Visited(false, e, l, n / 2))
    else None
  }

  // Nobody is woken twice, nobody off the cycle is woken, and in a cycle of two
  // or more the caller is not woken.
  lemma {:induction false} WokenOnce(oneAdvance: bool, e: seq<int>, l: int)
    requires IsGraph(e) && 0 <= l < |e| && OnCycle(e, l)
    requires Woken(oneAdvance, e, l).Some?
    ensures var ids := Woken(oneAdvance, e, l).value;
            && |ids| >= 1
            && (forall a, b :: 0 <= a < b < |ids| ==> ids[a] != ids[b])
            && (forall a :: 0 <= a < |ids| ==> Passes(e, l, CycleLen(e, l), ids[a]))
            && (l in ids <==> e[l] == l)
  {
    var n := CycleLen(e, l);
    var ids := Woken(oneAdvance, e, l).value;
    CycleNodes(e, l, 0);
    assert Hop(e, l, 1) == e[l];
    assert n == 1 <==> e[l] == l;
    if n > 1 {
      forall a | 0 <= a < |ids|
        ensures ids[a] != l
        ensures Passes(e, l, n, ids[a])
      {
        assert ids[a] == Hop(e, l, Turn(oneAdvance, a));
      }
      forall a, b | 0 <= a < b < |ids|
        ensures ids[a] != ids[b]
      {
        CycleDistinct(e, l, Turn(oneAdvance, a), Turn(oneAdvance, b));
      }
    } else {
      assert Hop(e, l, 0) == l;
      assert ids == [l];
    }
  }

  // The promise of the notice: every process of the cycle other than the caller
  // is woken.  It holds of the one-advance reading always, and of the text
  // exactly on cycles of one or two processes.
  lemma {:induction false} WakesAllIff(oneAdvance: bool, e: seq<int>, l: int)
    requires IsGraph(e) && 0 <= l < |e| && OnCycle(e, l)
    ensures (Woken(oneAdvance, e, l).Some? &&
             forall k: nat {:trigger Hop(e, l, k)} ::
               Hop(e, l, k) != l ==> Hop(e, l, k) in Woken(oneAdvance, e, l).value)
            <==> (oneAdvance || CycleLen(e, l) <= 2)
  {
    var n := CycleLen(e, l);
    if oneAdvance || n <= 2 {
      var ids := Woken(oneAdvance, e, l).value;
      forall k: nat | Hop(e, l, k) != l
        ensures Hop(e, l, k) in ids
      {
        var j := Reduce(e, l, k);
        assert j >= 1;
        assert ids[j - 1] == Hop(e, l, Turn(oneAdvance, j - 1)) == Hop(e, l, k);
      }
    } else if n % 2 == 0 {
      var ids := Woken(false, e, l).value;
      CycleDistinct(e, l, 0, 2);
      if Hop(e, l, 2) in ids {
        var a :| 0 <= a < |ids| && ids[a] == Hop(e, l, 2);
        assert ids[a] == Hop(e, l, Turn(false, a));
        if 2 * a + 1 < 2 { CycleDistinct(e, l, 2 * a + 1, 2); } else { CycleDistinct(e, l, 2, 2 * a + 1); }
      }
    }
  }

  lemma {:induction false} Reduce(e: seq<int>, l: int, k: nat) returns (j: nat)
    requires IsGraph(e) && 0 <= l < |e| && OnCycle(e, l)
    ensures j < CycleLen(e, l) && Hop(e, l, j) == Hop(e, l, k)
    ensures j == 0 ==> Hop(e, l, k) == l
    decreases k
  {
    var n := CycleLen(e, l);
    if k < n { j := k; } else {
      CycleNodes(e, l, k);
      j := Reduce(e, l, k - n);
    }
  }

  // ------------------------------------------------------------- following a chain

  // A chain that reaches its end never comes back.
  lemma {:induction false} ChainEnds(e: seq<int>, l: int, k: nat)
    requires IsGraph(e) && 0 <= l < |e| && Hop(e, l, k) == -1
    requires forall j: nat {:trigger Hop(e, l, j)} :: 1 <= j < k ==> Hop(e, l, j) != l
    ensures !OnCycle(e, l)
  {
    forall m: nat | m >= 1
      ensures Hop(e, l, m) != l
    {
      if m >= k { HopAdd(e, l, k, m - k); }
    }
  }

  // A chain that has not come back to l has not met any node twice.
  lemma {:induction false} ChainFresh(e: seq<int>, l: int, j: nat, k: nat)
    requires IsGraph(e) && 0 <= l < |e| && OnlyThrough(e, l)
    requires forall i: nat {:trigger Hop(e, l, i)} :: 1 <= i <= k ==> Hop(e, l, i) != l
    requires j < k && Hop(e, l, k) != -1
    ensures Hop(e, l, j) != Hop(e, l, k)
  {
    if j > 0 && Hop(e, l, j) == Hop(e, l, k) {
      HopAdd(e, l, j, k - j);
      var m := CycleMeets(e, l, Hop(e, l, j), k - j);
      HopAdd(e, l, j, m);
    }
  }

  // Waking anybody on the cycle, on either reading, leaves no cycle at all.
  lemma {:induction false} WakingBreaks(e: seq<int>, l: int, ids: seq<int>)
    requires IsGraph(e) && 0 <= l < |e| && OnlyThrough(e, l) && OnCycle(e, l)
    requires exists m: nat {:trigger Hop(e, l, m)} :: Hop(e, l, m) in ids
    ensures Acyclic(Cleared(e, ids))
  {
    var d := Cleared(e, ids);
    var m: nat :| Hop(e, l, m) in ids;
    forall i, k: nat | 0 <= i < |d| && k >= 1
      ensures Hop(d, i, k) != i
    {
      if Hop(d, i, k) == i {
        HopInSubgraph(e, d, i, k);
        var j := CycleMeets(e, l, i, k);
        // the cleared node lies on the cycle of i as well
        var b := Bring(e, i, k, j + m);
        HopAdd(e, i, j, m);
        CycleNodes(e, l, m);
      }
    }
  }

  lemma {:induction false} Bring(e: seq<int>, i: int, k: nat, a: nat) returns (b: nat)
    requires IsGraph(e) && 0 <= i < |e| && k >= 1 && Hop(e, i, k) == i
    ensures b < k && Hop(e, i, b) == Hop(e, i, a)
    decreases a
  {
    if a < k { b := a; } else {
      HopAdd(e, i, k, a - k);
      b := Bring(e, i, k, a - k);
    }
  }
}
