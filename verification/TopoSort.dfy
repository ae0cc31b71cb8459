/** Priority topological sorting: among the nodes that are ready, the smallest one goes next. */
module TopoSort {
  import opened Finite

  /** `deps[i]` are the nodes that node `i` depends on. */
  type Graph = seq<set<int>>

  predicate IsNode(g: Graph, i: int) {
    0 <= i < |g|
  }

  function Deps(g: Graph, i: int): (r: set<int>) {
    if IsNode(g, i) then g[i] else {}
  }

  ghost predicate WellFormed(g: Graph) {
    forall i :: IsNode(g, i) ==> Deps(g, i) <= Range(|g|)
  }

  // ---------------------------------------------------------------------- specification

  /** Node `i` may come next once `done` has been placed. */
  predicate Ready(g: Graph, done: set<int>, i: int) {
    IsNode(g, i) && i !in done && Deps(g, i) <= done
  }

  ghost predicate IsLeastReady(g: Graph, done: set<int>, i: int) {
    Ready(g, done, i) && forall j :: Ready(g, done, j) ==> i <= j
  }

  /** `o` extends the placed nodes `done`: every node is ready when its turn comes. */
  ghost predicate Continues(g: Graph, done: set<int>, o: seq<int>)
    decreases |o|
  {
    o != [] ==> Ready(g, done, o[0]) && Continues(g, done + {o[0]}, o[1..])
  }

  /** `o` always takes the least ready node, and stops only when none is ready. */
  ghost predicate Greedy(g: Graph, done: set<int>, o: seq<int>)
    decreases |o|
  {
    if o == [] then forall i :: !Ready(g, done, i)
    else IsLeastReady(g, done, o[0]) && Greedy(g, done + {o[0]}, o[1..])
  }

  ghost predicate LexLeq(a: seq<int>, b: seq<int>) {
    a != [] ==> b != [] && (a[0] < b[0] || (a[0] == b[0] && LexLeq(a[1..], b[1..])))
  }

  /** A complete order in which every node follows all its dependencies. */
  ghost predicate IsTopologicalOrder(g: Graph, o: seq<int>) {
    && |o| == |g| && Distinct(o) && Within(o, |g|)
    && forall k, d :: 0 <= k < |o| && d in Deps(g, o[k]) ==> d in o[..k]
  }

  /** `c` goes around a cycle: each node depends on the next, and the last on the first. */
  ghost predicate IsCycle(g: Graph, c: seq<int>) {
    && |c| > 0 && Within(c, |g|)
    && (forall k :: 0 <= k < |c| - 1 ==> c[k + 1] in Deps(g, c[k]))
    && c[0] in Deps(g, c[|c| - 1])
  }

  ghost predicate Acyclic(g: Graph) {
    forall c :: !IsCycle(g, c)
  }

  // ---------------------------------------------------------------------- the greedy order

  /** Placing nodes one at a time never repeats one and never goes before a dependency. */
  lemma {:induction false} ContinuesOrder(g: Graph, done: set<int>, o: seq<int>)
    requires Continues(g, done, o)
    ensures Distinct(o) && Within(o, |g|) && Elems(o) !! done
    ensures forall k, d :: 0 <= k < |o| && d in Deps(g, o[k]) ==> d in done + Elems(o[..k])
    decreases |o|
  {
    if o != [] {
      var p := o[1..];
      ContinuesOrder(g, done + {o[0]}, p);
      assert o == [o[0]] + p;
      forall k, d | 0 <= k < |o| && d in Deps(g, o[k]) ensures d in done + Elems(o[..k]) {
        if k > 0 {
          assert o[k] == p[k - 1];
          assert o[..k] == [o[0]] + p[..k - 1];
        }
      }
    }
  }

  lemma {:induction false} GreedyContinues(g: Graph, done: set<int>, o: seq<int>)
    requires Greedy(g, done, o)
    ensures Continues(g, done, o)
    decreases |o|
  {
    if o != [] { GreedyContinues(g, done + {o[0]}, o[1..]); }
  }

  /** At the first difference the greedy order has the smaller node. */
  lemma {:induction false} GreedyIsLeast(g: Graph, done: set<int>, o: seq<int>, other: seq<int>)
    requires Greedy(g, done, o) && Continues(g, done, other) && |o| <= |other|
    ensures LexLeq(o, other)
    decreases |o|
  {
    if o != [] {
      assert Ready(g, done, other[0]);
      if o[0] == other[0] {
        GreedyIsLeast(g, done + {o[0]}, o[1..], other[1..]);
      }
    }
  }

  /** There is only one greedy order. */
  lemma {:induction false} GreedyUnique(g: Graph, done: set<int>, o: seq<int>, p: seq<int>)
    requires Greedy(g, done, o) && Greedy(g, done, p)
    ensures o == p
    decreases |o|
  {
    if o != [] && p != [] {
      assert o[0] == p[0];
      GreedyUnique(g, done + {o[0]}, o[1..], p[1..]);
      assert o == [o[0]] + o[1..] && p == [p[0]] + p[1..];
    }
  }

  /** Appending the least ready node to a greedy prefix. */
  ghost predicate GreedyPrefix(g: Graph, done: set<int>, o: seq<int>)
    decreases |o|
  {
    o != [] ==> IsLeastReady(g, done, o[0]) && GreedyPrefix(g, done + {o[0]}, o[1..])
  }

  lemma {:induction false} GreedyAppend(g: Graph, done: set<int>, o: seq<int>, i: int)
    requires GreedyPrefix(g, done, o) && IsLeastReady(g, done + Elems(o), i)
    ensures GreedyPrefix(g, done, o + [i])
    decreases |o|
  {
    if o == [] {
      assert done + Elems(o) == done;
      assert (o + [i])[1..] == [];
    } else {
      assert o == [o[0]] + o[1..];
      assert done + Elems(o) == done + {o[0]} + Elems(o[1..]);
      GreedyAppend(g, done + {o[0]}, o[1..], i);
      assert (o + [i])[1..] == o[1..] + [i];
    }
  }

  lemma {:induction false} GreedyDone(g: Graph, done: set<int>, o: seq<int>)
    requires GreedyPrefix(g, done, o) && forall i :: !Ready(g, done + Elems(o), i)
    ensures Greedy(g, done, o)
    decreases |o|
  {
    if o == [] {
      assert done + Elems(o) == done;
    } else {
      assert o == [o[0]] + o[1..];
      assert done + Elems(o) == done + {o[0]} + Elems(o[1..]);
      GreedyDone(g, done + {o[0]}, o[1..]);
    }
  }

  // ---------------------------------------------------------------------- cycles

  /** In a topological order a cycle would go strictly down and come back up. */
  lemma {:induction false} DownTheCycle(g: Graph, o: seq<int>, c: seq<int>, k: nat, p: nat) returns (q: nat)
    requires IsTopologicalOrder(g, o) && IsCycle(g, c) && k < |c| && p < |o| && o[p] == c[0]
    ensures q < |o| && o[q] == c[k] && q + k <= p
  {
    if k == 0 {
      q := p;
    } else {
      var r := DownTheCycle(g, o, c, k - 1, p);
      assert c[k - 1 + 1] in Deps(g, c[k - 1]);
      q :| 0 <= q < r && o[..r][q] == c[k];
    }
  }

  lemma {:induction false} InOrder(g: Graph, o: seq<int>, i: int)
    requires IsTopologicalOrder(g, o) && IsNode(g, i)
    ensures i in o
  {
    ElemsSize(o);
    FullSubset(Elems(o), Range(|g|));
    assert i in Elems(o);
  }

  lemma {:induction false} OrderedIsAcyclic(g: Graph, o: seq<int>)
    requires IsTopologicalOrder(g, o)
    ensures Acyclic(g)
  {
    forall c ensures !IsCycle(g, c) {
      if IsCycle(g, c) {
        assert c[0] in c;
        InOrder(g, o, c[0]);
        var p :| 0 <= p < |o| && o[p] == c[0];
        var q := DownTheCycle(g, o, c, |c| - 1, p);
        assert false;
      }
    }
  }

  /** Nodes of which each has a dependency among them, as when the sort is stuck. */
  ghost predicate Stuck(g: Graph, left: set<int>) {
    left <= Range(|g|) && forall i :: i in left ==> Deps(g, i) * left != {}
  }

  ghost predicate IsWalk(g: Graph, left: set<int>, w: seq<int>) {
    && |w| > 0
    && (forall k :: 0 <= k < |w| ==> w[k] in left && 0 <= w[k] < |g|)
    && (forall k :: 0 <= k < |w| - 1 ==> w[k + 1] in Deps(g, w[k]))
  }

  lemma {:induction false} Walk(g: Graph, left: set<int>, start: int, n: nat) returns (w: seq<int>)
    requires Stuck(g, left) && start in left
    ensures IsWalk(g, left, w) && |w| == n + 1
  {
    if n == 0 {
      w := [start];
    } else {
      var v := Walk(g, left, start, n - 1);
      var x := Choose(Deps(g, v[n - 1]) * left);
      w := v + [x];
    }
  }

  /** Whatever is left when the sort is stuck really contains a cycle. */
  lemma {:induction false} StuckHasCycle(g: Graph, left: set<int>) returns (c: seq<int>)
    requires Stuck(g, left) && left != {}
    ensures IsCycle(g, c) && Elems(c) <= left
  {
    var start := Choose(left);
    var w := Walk(g, left, start, |g|);
    var i, j := Pigeonhole(w, |g|);
    c := w[i..j];
    assert forall k :: 0 <= k < |c| ==> c[k] == w[i + k];
    assert w[j - 1 + 1] in Deps(g, w[j - 1]);
    forall k | 0 <= k < |c| - 1 ensures c[k + 1] in Deps(g, c[k]) {
      assert w[i + k + 1] in Deps(g, w[i + k]);
    }
    forall x | x in c ensures x in left && 0 <= x < |g| {
      var k :| 0 <= k < |c| && c[k] == x;
      assert w[i + k] == x;
    }
  }

  /** The nodes a greedy order leaves out are stuck. */
  lemma {:induction false} LeftIsStuck(g: Graph, done: set<int>)
    requires WellFormed(g)
    requires forall i :: !Ready(g, done, i)
    ensures Stuck(g, Range(|g|) - done)
  {
    forall i | i in Range(|g|) - done ensures Deps(g, i) * (Range(|g|) - done) != {} {
      assert !Ready(g, done, i);
      assert Deps(g, i) <= Range(|g|);
      if Deps(g, i) * (Range(|g|) - done) == {} {
        forall d | d in Deps(g, i) ensures d in done {
          assert d in Range(|g|);
          assert d in Deps(g, i) * (Range(|g|) - done) || d in done;
        }
      }
    }
  }

  // ---------------------------------------------------------------------- the algorithm

  ghost predicate Ascending(s: seq<int>) {
    forall j, k :: 0 <= j < k < |s| ==> s[j] < s[k]
  }

  function Insert(x: int, s: seq<int>): (r: seq<int>)
    ensures forall y :: y in r <==> y in s || y == x
  {
    if s == [] then [x]
    else
      assert s == [s[0]] + s[1..];
      if x <= s[0] then [x] + s
      else
        var rest := Insert(x, s[1..]);
        assert forall y :: y in [s[0]] + rest <==> y == s[0] || y in rest;
        [s[0]] + rest
  }

  lemma {:induction false} InsertAscending(x: int, s: seq<int>)
    requires Ascending(s) && x !in s
    ensures Ascending(Insert(x, s))
  {
    if s != [] && s[0] < x {
      var rest := Insert(x, s[1..]);
      InsertAscending(x, s[1..]);
      assert Insert(x, s) == [s[0]] + rest;
      forall k | 0 <= k < |rest| ensures s[0] < rest[k] {
        assert rest[k] in rest;
      }
    }
  }

  /** The ready list in declaration order. */
  function Sorted(s: seq<int>): (r: seq<int>)
    ensures forall y :: y in r <==> y in s
  {
    if s == [] then []
    else
      assert s == [s[0]] + s[1..];
      Insert(s[0], Sorted(s[1..]))
  }

  lemma {:induction false} SortedAscending(s: seq<int>)
    requires Distinct(s)
    ensures Ascending(Sorted(s))
  {
    if s != [] {
      SortedAscending(s[1..]);
      assert s[0] !in s[1..];
      InsertAscending(s[0], Sorted(s[1..]));
    }
  }

  /** The nodes below `n` that depend on `d`, in declaration order. */
  function DependentsBelow(g: Graph, d: int, n: nat): (r: seq<int>)
    requires n <= |g|
    ensures forall i :: i in r <==> 0 <= i < n && d in Deps(g, i)
    ensures Distinct(r)
  {
    if n == 0 then []
    else DependentsBelow(g, d, n - 1) + (if d in Deps(g, n - 1) then [n - 1] else [])
  }

  function RootsBelow(g: Graph, n: nat): (r: seq<int>)
    requires n <= |g|
    ensures forall i :: i in r <==> 0 <= i < n && Deps(g, i) == {}
    ensures Distinct(r)
  {
    if n == 0 then []
    else RootsBelow(g, n - 1) + (if Deps(g, n - 1) == {} then [n - 1] else [])
  }

  /** How many dependencies of node `i` are still missing from `done`. */
  ghost function Missing(g: Graph, done: set<int>, i: int): (n: nat) {
    |Deps(g, i) - done|
  }

  lemma {:induction false} MissingStep(g: Graph, done: set<int>, next: int, i: int)
    requires next !in done
    ensures next in Deps(g, i) ==> Missing(g, done + {next}, i) == Missing(g, done, i) - 1
    ensures next !in Deps(g, i) ==> Missing(g, done + {next}, i) == Missing(g, done, i)
    ensures Missing(g, done, i) == 0 <==> Deps(g, i) <= done
  {
    assert Deps(g, i) - (done + {next}) == (Deps(g, i) - done) - {next};
    if next in Deps(g, i) {
      MinusOne(Deps(g, i) - done, next);
    } else {
      assert (Deps(g, i) - done) - {next} == Deps(g, i) - done;
    }
    SubsetMinus(Deps(g, i), done);
  }

  /** The bookkeeping of the sort between two placements. */
  ghost predicate Bookkeeping(g: Graph, done: set<int>, indegree: seq<int>, ready: seq<int>) {
    && |indegree| == |g|
    && (forall i :: i in done ==> Deps(g, i) <= done)
    && (forall i :: IsNode(g, i) ==> indegree[i] == Missing(g, done, i))
    && Distinct(ready)
    && (forall i :: i in ready <==> Ready(g, done, i))
  }

  /** Half-way through placing `next`: the dependents in `seen` have been told. */
  ghost predicate Told(g: Graph, done: set<int>, seen: set<int>, indegree: seq<int>, ready: seq<int>, ready': seq<int>) {
    && |indegree| == |g|
    && (forall i :: IsNode(g, i) ==> indegree[i] == Missing(g, done, i) - (if i in seen then 1 else 0))
    && Distinct(ready')
    && (forall i :: i in ready' <==> i in ready || (i in seen && Missing(g, done, i) == 1))
  }

  lemma {:induction false} AllTold(g: Graph, done: set<int>, next: int, seen: set<int>, indegree: seq<int>, ready: seq<int>, ready': seq<int>)
    requires Told(g, done, seen, indegree, ready, ready') && Ready(g, done, next)
    requires forall i :: i in seen <==> IsNode(g, i) && next in Deps(g, i)
    requires forall i :: i in ready <==> Ready(g, done, i) && i != next
    requires forall i :: i in done ==> Deps(g, i) <= done
    ensures Bookkeeping(g, done + {next}, indegree, ready')
  {
    hide Missing;
    forall i | IsNode(g, i) ensures indegree[i] == Missing(g, done + {next}, i) {
      MissingStep(g, done, next, i);
    }
    forall i ensures i in ready' <==> Ready(g, done + {next}, i) {
      MissingStep(g, done, next, i);
      if IsNode(g, i) { ReadyAfter(g, done, next, i); }
    }
  }

  lemma {:induction false} ReadyAfter(g: Graph, done: set<int>, next: int, i: int)
    requires Ready(g, done, next) && IsNode(g, i) && (forall j :: j in done ==> Deps(g, j) <= done)
    ensures Ready(g, done + {next}, i) <==>
              (Ready(g, done, i) && i != next) || (next in Deps(g, i) && Missing(g, done, i) == 1)
  {
    MissingStep(g, done, next, i);
    SubsetMinus(Deps(g, i), done + {next});
  }

  method Tell(g: Graph, ghost done: set<int>, ghost seen: set<int>, d: int, indegree: seq<int>, ghost was: seq<int>, ready: seq<int>)
    returns (indegree': seq<int>, ready': seq<int>)
    requires Told(g, done, seen, indegree, was, ready) && IsNode(g, d) && d !in seen && d !in was
    ensures Told(g, done, seen + {d}, indegree', was, ready')
  {
    var remaining := indegree[d] - 1;
    indegree', ready' := indegree[d := remaining], ready;
    if remaining == 0 {
      ready' := ready + [d];
    }
  }

  /** Placing `next`: one dependency less for each dependent, and the ones at zero become ready. */
  method Place(g: Graph, ghost done: set<int>, next: int, indegree: seq<int>, ready: seq<int>)
    returns (indegree': seq<int>, ready': seq<int>)
    requires next !in ready && Ready(g, done, next)
    requires Bookkeeping(g, done, indegree, [next] + ready)
    ensures Bookkeeping(g, done + {next}, indegree', ready')
  {
    indegree', ready' := indegree, ready;
    var dependents := DependentsBelow(g, next, |g|);
    forall i ensures i in ready <==> Ready(g, done, i) && i != next {
      assert i in [next] + ready <==> i == next || i in ready;
    }
    assert forall k :: 0 <= k < |ready| ==> ([next] + ready)[k + 1] == ready[k];
    ghost var seen: set<int> := {};
    for k := 0 to |dependents|
      invariant Told(g, done, seen, indegree', ready, ready')
      invariant seen == Elems(dependents[..k])
    {
      var d := dependents[k];
      assert dependents[..k + 1] == dependents[..k] + [d];
      assert d !in seen && d in dependents;
      indegree', ready' := Tell(g, done, seen, d, indegree', ready, ready');
      seen := seen + {d};
    }
    assert dependents[..|dependents|] == dependents;
    AllTold(g, done, next, seen, indegree', ready, ready');
  }

  method SortReady(g: Graph, ghost done: set<int>, ready: seq<int>) returns (r: seq<int>)
    requires Distinct(ready) && ready != [] && forall i :: i in ready <==> Ready(g, done, i)
    ensures r != [] && Distinct(r) && forall i :: i in r <==> Ready(g, done, i)
    ensures IsLeastReady(g, done, r[0])
  {
    r := Sorted(ready);
    SortedAscending(ready);
    assert ready[0] in r;
    forall j | Ready(g, done, j) ensures r[0] <= j {
      assert j in r;
    }
  }

  /** The sort is stuck once nothing is ready. */
  lemma {:induction false} Stopped(g: Graph, o: seq<int>)
    requires GreedyPrefix(g, {}, o) && forall i :: !Ready(g, Elems(o), i)
    ensures Greedy(g, {}, o)
  {
    assert {} + Elems(o) == Elems(o);
    GreedyDone(g, {}, o);
  }

  /** One round of the sort: take the least ready node and place it. */
  method Round(g: Graph, ordered: seq<int>, indegree: seq<int>, ready: seq<int>)
    returns (ordered': seq<int>, indegree': seq<int>, ready': seq<int>)
    requires GreedyPrefix(g, {}, ordered) && Bookkeeping(g, Elems(ordered), indegree, ready) && ready != []
    ensures GreedyPrefix(g, {}, ordered') && Bookkeeping(g, Elems(ordered'), indegree', ready')
    ensures Elems(ordered) < Elems(ordered') <= Elems(ordered) + Range(|g|)
  {
    ghost var done := Elems(ordered);
    var sorted := SortReady(g, done, ready);
    var next := sorted[0];
    assert sorted == [next] + sorted[1..];
    assert next !in sorted[1..];
    indegree', ready' := Place(g, done, next, indegree, sorted[1..]);
    ordered' := ordered + [next];
    Extend(g, ordered, next);
  }

  lemma {:induction false} Extend(g: Graph, ordered: seq<int>, next: int)
    requires GreedyPrefix(g, {}, ordered) && IsLeastReady(g, Elems(ordered), next)
    ensures GreedyPrefix(g, {}, ordered + [next])
    ensures Elems(ordered + [next]) == Elems(ordered) + {next} && next in Range(|g|)
  {
    assert {} + Elems(ordered) == Elems(ordered);
    GreedyAppend(g, {}, ordered, next);
  }

  lemma {:induction false} Leftover(g: Graph, done: set<int>, indegree: seq<int>, i: int)
    requires Bookkeeping(g, done, indegree, []) && IsNode(g, i)
    ensures indegree[i] > 0 <==> i !in done
  {
    assert !Ready(g, done, i) by { assert i !in []; }
    SubsetMinus(Deps(g, i), done);
  }

  /**
   * The sort: the result is the greedy order, and a node keeps a positive indegree exactly when it
   * was never placed.
   */
  method Sort(g: Graph) returns (ordered: seq<int>, indegree: seq<int>)
    ensures Greedy(g, {}, ordered)
    ensures |indegree| == |g| && forall i :: IsNode(g, i) ==> (indegree[i] > 0 <==> i !in ordered)
  {
    indegree := seq(|g|, i => |Deps(g, i)|);
    var ready := RootsBelow(g, |g|);
    ordered := [];
    while ready != []
      invariant GreedyPrefix(g, {}, ordered)
      invariant Bookkeeping(g, Elems(ordered), indegree, ready)
      decreases Range(|g|) - Elems(ordered)
    {
      ordered, indegree, ready := Round(g, ordered, indegree, ready);
    }
    forall i ensures !Ready(g, Elems(ordered), i) { assert i !in ready; }
    Stopped(g, ordered);
    forall i | IsNode(g, i) ensures indegree[i] > 0 <==> i !in ordered {
      Leftover(g, Elems(ordered), indegree, i);
    }
  }

  // ---------------------------------------------------------------------- main results

  /**
   * The sort places everything exactly when the graph is acyclic. Then its result is a topological
   * order, lexicographically least among all of them; otherwise the nodes it leaves out contain a cycle.
   */
  lemma {:induction false} SortIsComplete(g: Graph, o: seq<int>)
    requires WellFormed(g) && Greedy(g, {}, o)
    ensures |o| == |g| <==> Acyclic(g)
    ensures |o| == |g| ==> IsTopologicalOrder(g, o)
    ensures |o| != |g| ==> exists c :: IsCycle(g, c) && Elems(c) !! Elems(o)
  {
    GreedyContinues(g, {}, o);
    ContinuesOrder(g, {}, o);
    ElemsSize(o);
    if |o| == |g| {
      OrderedIsAcyclic(g, o);
    } else {
      var c := LeftCycle(g, o);
      assert IsCycle(g, c);
    }
  }

  lemma {:induction false} LeftCycle(g: Graph, o: seq<int>) returns (c: seq<int>)
    requires WellFormed(g) && Greedy(g, {}, o) && |Elems(o)| == |o| != |g|
    ensures IsCycle(g, c) && Elems(c) !! Elems(o)
  {
    var left := Range(|g|) - Elems(o);
    NothingReady(g, {}, o);
    assert {} + Elems(o) == Elems(o);
    LeftIsStuck(g, Elems(o));
    GreedyContinues(g, {}, o);
    ContinuesOrder(g, {}, o);
    c := StuckHasCycle(g, left);
  }

  lemma {:induction false} NothingReady(g: Graph, done: set<int>, o: seq<int>)
    requires Greedy(g, done, o)
    ensures forall i :: !Ready(g, done + Elems(o), i)
    decreases |o|
  {
    if o == [] {
      assert done + Elems(o) == done;
    } else {
      NothingReady(g, done + {o[0]}, o[1..]);
      assert o == [o[0]] + o[1..];
      assert done + Elems(o) == done + {o[0]} + Elems(o[1..]);
    }
  }

  /** Every topological order places its nodes when they are ready. */
  lemma {:induction false} TopologicalContinues(g: Graph, o: seq<int>, k: nat)
    requires IsTopologicalOrder(g, o) && k <= |o|
    ensures Continues(g, Elems(o[..k]), o[k..])
    decreases |o| - k
  {
    if k < |o| {
      assert o[..k + 1] == o[..k] + [o[k]];
      assert Elems(o[..k + 1]) == Elems(o[..k]) + {o[k]};
      TopologicalContinues(g, o, k + 1);
      assert o[k..][1..] == o[k + 1..];
      assert o[k] !in o[..k] && o[k] in o;
      forall d | d in Deps(g, o[k]) ensures d in Elems(o[..k]) {
        assert d in o[..k];
      }
    }
  }

  /** Among all topological orders the sort returns the lexicographically least. */
  lemma {:induction false} SortIsLexicographicallyLeast(g: Graph, o: seq<int>, other: seq<int>)
    requires Greedy(g, {}, o) && IsTopologicalOrder(g, o) && IsTopologicalOrder(g, other)
    ensures LexLeq(o, other)
  {
    TopologicalContinues(g, other, 0);
    assert Elems(other[..0]) == {} && other[0..] == other;
    GreedyIsLeast(g, {}, o, other);
  }
}
