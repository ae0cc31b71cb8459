/** Reservoir sampling by Algorithm R, with the random generator as a sequence of draws. */
module Reservoir {
  import opened Finite

  /** One `add`: `draw` is the index drawn below the number of items seen so far, this one included. */
  function Added<T>(items: seq<T>, size: int, item: T, draw: int): (r: seq<T>) {
    if size <= 0 then items
    else if |items| < size then items + [item]
    else if 0 <= draw < size then items[draw := item]
    else items
  }

  class ReservoirSample<T> {
    const size: int
    var items: seq<T>
    var seen: nat

    ghost predicate Valid()
      reads this
    {
      if size <= 0 then items == [] && seen == 0
      else |items| == (if seen < size then seen else size)
    }

    constructor (size: int)
      ensures Valid() && this.size == size && items == [] && seen == 0
    {
      this.size := size;
      items := [];
      seen := 0;
    }

    method Add(item: T, draw: nat)
      requires Valid() && draw <= seen
      modifies this
      ensures Valid()
      ensures seen == if size <= 0 then old(seen) else old(seen) + 1
      ensures items == Added(old(items), size, item, draw)
    {
      if size <= 0 {
        return;
      }
      seen := seen + 1;
      if |items| < size {
        items := items + [item];
        return;
      }
      var index := draw;
      if index < size {
        items := items[index := item];
      }
    }
  }

  // ---------------------------------------------------------------------- runs of the generator

  /** A possible sequence of draws for `n` items: the draw for item `size + k` is below `size + k + 1`. */
  ghost predicate IsRun(size: nat, n: nat, c: seq<int>) {
    && |c| == (if n <= size then 0 else n - size)
    && forall k :: 0 <= k < |c| ==> 0 <= c[k] <= size + k
  }

  /** The stream positions held by the reservoir, slot by slot, after `n` items. */
  ghost function Slots(size: nat, n: nat, c: seq<int>): (r: seq<int>)
    requires |c| == (if n <= size then 0 else n - size)
    ensures |r| == (if n <= size then n else size)
    ensures forall k :: 0 <= k < |r| ==> 0 <= r[k] < n
  {
    if n == 0 then []
    else if n <= size then Slots(size, n - 1, []) + [n - 1]
    else Added(Slots(size, n - 1, c[..|c| - 1]), size, n - 1, c[|c| - 1])
  }

  function At<T>(stream: seq<T>, positions: seq<int>): (r: seq<T>)
    requires forall k :: 0 <= k < |positions| ==> 0 <= positions[k] < |stream|
    ensures |r| == |positions|
  {
    seq(|positions|, k requires 0 <= k < |positions| => stream[positions[k]])
  }

  /** The reservoir after `n` items: one `add` after another. */
  ghost function Sampled<T>(stream: seq<T>, size: nat, n: nat, draws: seq<nat>): (r: seq<T>)
    requires n <= |stream| && IsRun(size, |stream|, draws)
  {
    if n == 0 then []
    else Added(Sampled(stream, size, n - 1, draws), size, stream[n - 1], if n <= size then 0 else draws[n - 1 - size])
  }

  lemma {:induction false} SampledIsSlots<T>(stream: seq<T>, size: nat, n: nat, draws: seq<nat>)
    requires n <= |stream| && IsRun(size, |stream|, draws)
    ensures var c := draws[..if n <= size then 0 else n - size];
            Sampled(stream, size, n, draws) == At(stream, Slots(size, n, c))
  {
    hide At, Added, Slots;
    if n == 0 {
      assert draws[..0] == [];
    } else {
      SampledIsSlots(stream, size, n - 1, draws);
      var m := if n <= size then 0 else n - size;
      var before := draws[..if n - 1 <= size then 0 else n - 1 - size];
      var draw := if n <= size then 0 else draws[n - 1 - size];
      SlotsIsAdded(size, n, draws[..m], before, draw);
      AtAdded(stream, Slots(size, n - 1, before), size, n - 1, draw);
    }
  }

  lemma {:induction false} SlotsIsAdded(size: nat, n: nat, c: seq<int>, before: seq<int>, draw: int)
    requires n > 0 && |c| == (if n <= size then 0 else n - size) && |before| == (if n - 1 <= size then 0 else n - 1 - size)
    requires if n <= size then draw == 0 else c == before + [draw]
    ensures Slots(size, n, c) == Added(Slots(size, n - 1, before), size, n - 1, draw)
  {
    if n <= size {
      assert before == [];
    } else {
      assert c[..|c| - 1] == before;
    }
  }

  lemma {:induction false} AtAdded<T>(stream: seq<T>, slots: seq<int>, size: nat, n: nat, draw: nat)
    requires n < |stream| && |slots| <= size && forall k :: 0 <= k < |slots| ==> 0 <= slots[k] < n
    ensures forall k :: 0 <= k < |Added(slots, size, n, draw)| ==> 0 <= Added(slots, size, n, draw)[k] <= n
    ensures At(stream, Added(slots, size, n, draw)) == Added(At(stream, slots), size, stream[n], draw)
  {
  }

  /** Sampling a whole stream leaves exactly the items at the positions that `Slots` names. */
  method SampleReservoir<T>(stream: seq<T>, size: int, draws: seq<nat>) returns (items: seq<T>)
    requires IsRun(if size <= 0 then 0 else size, |stream|, draws)
    ensures size <= 0 ==> items == []
    ensures size > 0 ==> items == At(stream, Slots(size, |stream|, draws))
  {
    var sample := new ReservoirSample<T>(size);
    for n := 0 to |stream|
      invariant fresh(sample) && sample.Valid() && sample.size == size
      invariant sample.seen == if size <= 0 then 0 else n
      invariant size > 0 ==> sample.items == Sampled(stream, size, n, draws)
    {
      sample.Add(stream[n], if 0 < size <= n then draws[n - size] else 0);
    }
    items := sample.items;
    if size > 0 {
      SampledIsSlots(stream, size, |stream|, draws);
      assert draws[..|draws|] == draws;
    }
  }

  // ---------------------------------------------------------------------- counting

  /** Multiplication by repeated addition, which keeps the counting proofs linear. */
  ghost function Times(a: nat, b: nat): (r: nat) {
    if a == 0 then 0 else b + Times(a - 1, b)
  }

  lemma {:induction false} TimesIs(a: nat, b: nat)
    ensures Times(a, b) == a * b
  {
    if a > 0 { TimesIs(a - 1, b); }
  }

  ghost function Drawn(c: seq<int>, draws: set<int>): (r: set<seq<int>>) {
    set i | i in draws :: c + [i]
  }

  lemma {:induction false} DrawnSize(c: seq<int>, draws: set<int>)
    ensures |Drawn(c, draws)| == |draws|
    decreases |draws|
  {
    if draws != {} {
      var i0 := Choose(draws);
      DrawnSize(c, draws - {i0});
      assert c + [i0] !in Drawn(c, draws - {i0}) by {
        forall i | i in draws - {i0} ensures c + [i] != c + [i0] {
          assert (c + [i])[|c|] == i && (c + [i0])[|c|] == i0;
        }
      }
      UnionSize(Drawn(c, draws), Drawn(c, draws - {i0}), {c + [i0]});
    } else {
      assert Drawn(c, draws) == {};
    }
  }

  /** A sequence of draws without its last one. */
  ghost function Init(x: seq<int>): (r: seq<int>) {
    if |x| == 0 then [] else x[..|x| - 1]
  }

  /** The members of `e` that extend `c` by one draw. */
  ghost function Fibre(e: set<seq<int>>, c: seq<int>): (r: set<seq<int>>) {
    set x | x in e && |x| > 0 && Init(x) == c
  }

  /** If all of `e` extends members of `s`, and each of those in `k` ways, then `|e| = |s| * k`. */
  lemma {:induction false} FibreCount(s: set<seq<int>>, e: set<seq<int>>, k: nat)
    requires forall x :: x in e ==> |x| > 0 && Init(x) in s
    requires forall c :: c in s ==> |Fibre(e, c)| == k
    ensures |e| == Times(|s|, k)
    decreases |s|
  {
    if s != {} {
      var c0 := Choose(s);
      var rest := e - Fibre(e, c0);
      forall c | c in s - {c0} ensures |Fibre(rest, c)| == k {
        assert Fibre(rest, c) == Fibre(e, c);
      }
      FibreCount(s - {c0}, rest, k);
      UnionSize(e, rest, Fibre(e, c0));
      MinusOne(s, c0);
    } else {
      assert e == {};
    }
  }

  /** To know a fibre it is enough to know which draws land in it. */
  lemma {:induction false} FibreIs(e: set<seq<int>>, c: seq<int>, draws: set<int>)
    requires forall i :: c + [i] in e <==> i in draws
    ensures |Fibre(e, c)| == |draws|
  {
    forall x | x in Fibre(e, c) ensures x in Drawn(c, draws) {
      var i := x[|x| - 1];
      assert x == c + [i];
      assert c + [i] in e;
    }
    forall x | x in Drawn(c, draws) ensures x in Fibre(e, c) {
      var i :| i in draws && x == c + [i];
    }
    assert Fibre(e, c) == Drawn(c, draws);
    DrawnSize(c, draws);
  }

  // ---------------------------------------------------------------------- one more item

  /** For every sequence of draws, the slots of the reservoir it leads to. */
  type Table = map<seq<int>, seq<int>>

  ghost predicate Shaped(size: nat, m: nat, t: Table) {
    forall c {:trigger t[c]} :: c in t ==> |t[c]| == size && Distinct(t[c]) && Within(t[c], m)
  }

  /** `u` is `t` after the item at position `m`: any draw up to `m`, with the effect of one `add`. */
  ghost predicate Grown(size: nat, m: nat, t: Table, u: Table) {
    && (forall x {:trigger Init(x)} :: x in u ==> |x| > 0 && Init(x) in t)
    && (forall c, i {:trigger c + [i] in u} :: c in t ==> (c + [i] in u <==> 0 <= i <= m))
    && (forall c, i {:trigger u[c + [i]]} :: c in t && 0 <= i <= m ==> u[c + [i]] == Added(t[c], size, m, i))
  }

  /** The draw sequences whose sample is exactly the set of positions `a`. */
  ghost function Producing(t: Table, a: set<int>): (r: set<seq<int>>) {
    set c | c in t && Elems(t[c]) == a
  }

  /** The draw sequences that keep position `p`. */
  ghost function Keeping(t: Table, p: int): (r: set<seq<int>>) {
    set c | c in t && p in t[c]
  }

  /** What one `add` of position `m` does to the set of positions kept. */
  lemma {:induction false} AddedElems(s: seq<int>, size: nat, m: nat, i: int)
    requires |s| == size && Distinct(s) && Within(s, m) && 0 <= i <= m
    ensures var r := Added(s, size, m, i); |r| == size && Distinct(r) && Within(r, m + 1)
    ensures Elems(Added(s, size, m, i)) == if i < size then Elems(s) - {s[i]} + {m} else Elems(s)
  {
    var r := Added(s, size, m, i);
    if i < size {
      assert r[i] == m;
      forall x | x in Elems(s) - {s[i]} ensures x in r {
        var k :| 0 <= k < |s| && s[k] == x;
        assert r[k] == x;
      }
      assert m !in s;
      forall x | x in r && x != m ensures x in Elems(s) - {s[i]} {
        var k :| 0 <= k < |r| && r[k] == x;
        assert s[k] == x;
      }
    }
  }

  lemma {:induction false} GrownShaped(size: nat, m: nat, t: Table, u: Table)
    requires Shaped(size, m, t) && Grown(size, m, t, u)
    ensures Shaped(size, m + 1, u)
  {
    forall x | x in u ensures |u[x]| == size && Distinct(u[x]) && Within(u[x], m + 1) {
      var c, i := Last(size, m, t, u, x);
      AddedElems(t[c], size, m, i);
    }
  }

  lemma {:induction false} Last(size: nat, m: nat, t: Table, u: Table, x: seq<int>) returns (c: seq<int>, i: int)
    requires Grown(size, m, t, u) && x in u
    ensures |x| > 0 && Init(x) == c && x == c + [i]
    ensures c in t && 0 <= i <= m && u[x] == Added(t[c], size, m, i)
  {
    assert Init(x) in t;
    c, i := x[..|x| - 1], x[|x| - 1];
    assert x == c + [i];
  }

  /** A draw after `c` lands in a set of runs exactly when the slots it leads to do. */
  lemma {:induction false} Lands(size: nat, m: nat, t: Table, u: Table, c: seq<int>, i: int, a: set<int>)
    requires Shaped(size, m, t) && Grown(size, m, t, u) && c in t && size <= m
    ensures c + [i] in Producing(u, a) <==>
              0 <= i <= m && (if i < size then Elems(t[c]) - {t[c][i]} + {m} else Elems(t[c])) == a
  {
    if 0 <= i <= m { AddedElems(t[c], size, m, i); }
  }

  lemma {:induction false} TableGrows(size: nat, m: nat, t: Table, u: Table)
    requires Grown(size, m, t, u)
    ensures |u.Keys| == Times(|t.Keys|, m + 1)
  {
    forall c | c in t.Keys ensures |Fibre(u.Keys, c)| == m + 1 {
      FibreIs(u.Keys, c, Range(m + 1));
    }
    forall x | x in u.Keys ensures |x| > 0 && Init(x) in t.Keys {
      var c, i := Last(size, m, t, u, x);
    }
    FibreCount(t.Keys, u.Keys, m + 1);
  }

  /** Without the newest position: the set carries over, with the draws that miss every slot. */
  lemma {:induction false} ProducingWithoutNewest(size: nat, m: nat, t: Table, u: Table, a: set<int>)
    requires size <= m && Shaped(size, m, t) && Grown(size, m, t, u) && m !in a
    ensures |Producing(u, a)| == Times(|Producing(t, a)|, m + 1 - size)
  {
    forall c | c in Producing(t, a) ensures |Fibre(Producing(u, a), c)| == m + 1 - size {
      FibreWithoutNewest(size, m, t, u, a, c);
    }
    forall x | x in Producing(u, a) ensures |x| > 0 && Init(x) in Producing(t, a) {
      var c, i := Last(size, m, t, u, x);
      AddedElems(t[c], size, m, i);
    }
    FibreCount(Producing(t, a), Producing(u, a), m + 1 - size);
  }

  lemma {:induction false} FibreWithoutNewest(size: nat, m: nat, t: Table, u: Table, a: set<int>, c: seq<int>)
    requires size <= m && Shaped(size, m, t) && Grown(size, m, t, u) && m !in a && c in Producing(t, a)
    ensures |Fibre(Producing(u, a), c)| == m + 1 - size
  {
    forall i ensures c + [i] in Producing(u, a) <==> i in Range(m + 1) - Range(size) {
      Lands(size, m, t, u, c, i, a);
    }
    FibreIs(Producing(u, a), c, Range(m + 1) - Range(size));
  }

  /** The runs whose sample is `a` with one further position from `qs`. */
  ghost function WithOneOf(t: Table, a: set<int>, qs: set<int>): (r: set<seq<int>>) {
    set c | c in t && exists q :: q in qs && Elems(t[c]) == a + {q}
  }

  lemma {:induction false} WithOneOfSplit(t: Table, a: set<int>, qs: set<int>, q0: int)
    requires a !! qs && q0 in qs
    ensures |WithOneOf(t, a, qs)| == |Producing(t, a + {q0})| + |WithOneOf(t, a, qs - {q0})|
  {
    var head, tail := Producing(t, a + {q0}), WithOneOf(t, a, qs - {q0});
    forall c | c in tail ensures c !in head {
      var q :| q in qs - {q0} && Elems(t[c]) == a + {q};
      assert q in a + {q} && q !in a + {q0};
    }
    forall c | c in WithOneOf(t, a, qs) ensures c in head + tail {
      var q :| q in qs && Elems(t[c]) == a + {q};
      if q != q0 { assert q in qs - {q0}; }
    }
    UnionSize(WithOneOf(t, a, qs), head, tail);
  }

  /** The one draw that turns a sample of `rest + {q}` into a sample of `rest` and the newest item. */
  lemma {:induction false} EvictingDraw(size: nat, m: nat, t: Table, u: Table, rest: set<int>, q: int, c: seq<int>)
    requires size <= m && Shaped(size, m, t) && Grown(size, m, t, u)
    requires m !in rest && q !in rest && q != m && c in t && Elems(t[c]) == rest + {q}
    ensures |Fibre(Producing(u, rest + {m}), c)| == 1
  {
    assert q in t[c];
    var k :| 0 <= k < |t[c]| && t[c][k] == q;
    forall i ensures c + [i] in Producing(u, rest + {m}) <==> i in {k} {
      Lands(size, m, t, u, c, i, rest + {m});
      if 0 <= i < size {
        if i == k {
          assert rest + {q} - {q} + {m} == rest + {m};
        } else {
          assert q in Elems(t[c]) - {t[c][i]} + {m};
        }
      } else {
        assert m !in t[c];
      }
    }
    FibreIs(Producing(u, rest + {m}), c, {k});
  }

  /** With the newest position: exactly one draw evicts the one position that is not wanted. */
  lemma {:induction false} ProducingWithNewest(size: nat, m: nat, t: Table, u: Table, a: set<int>, rest: set<int>, qs: set<int>)
    requires size <= m && Shaped(size, m, t) && Grown(size, m, t, u)
    requires rest <= Range(m) && a == rest + {m} && qs == Range(m) - rest
    ensures |Producing(u, a)| == |WithOneOf(t, rest, qs)|
  {
    var from, to := WithOneOf(t, rest, qs), Producing(u, a);
    forall c | c in from ensures |Fibre(to, c)| == 1 {
      var q :| q in qs && Elems(t[c]) == rest + {q};
      EvictingDraw(size, m, t, u, rest, q, c);
    }
    forall x | x in to ensures |x| > 0 && Init(x) in from {
      Evicted(size, m, t, u, rest, x);
    }
    FibreCount(from, to, 1);
    TimesIs(|from|, 1);
  }

  lemma {:induction false} Evicted(size: nat, m: nat, t: Table, u: Table, rest: set<int>, x: seq<int>)
    requires Shaped(size, m, t) && Grown(size, m, t, u) && rest <= Range(m) && x in Producing(u, rest + {m})
    ensures |x| > 0 && Init(x) in WithOneOf(t, rest, Range(m) - rest)
  {
    var c, i := Last(size, m, t, u, x);
    AddedElems(t[c], size, m, i);
    assert m in Elems(u[x]) && m !in Elems(t[c]);
    var q := t[c][i];
    assert Elems(t[c]) - {q} == rest by { assert Elems(u[x]) - {m} == rest; }
    assert q in t[c] && Elems(t[c]) == rest + {q};
  }

  /** A position already kept survives every draw but the one that hits its slot. */
  lemma {:induction false} KeepingOlder(size: nat, m: nat, t: Table, u: Table, p: int)
    requires size <= m && Shaped(size, m, t) && Grown(size, m, t, u) && p != m
    ensures |Keeping(u, p)| == Times(|Keeping(t, p)|, m)
  {
    forall c | c in Keeping(t, p) ensures |Fibre(Keeping(u, p), c)| == m {
      var k :| 0 <= k < |t[c]| && t[c][k] == p;
      MinusOne(Range(m + 1), k);
      forall i ensures c + [i] in Keeping(u, p) <==> i in Range(m + 1) - {k} {
        if 0 <= i <= m { Survives(t[c], size, m, i, k); }
      }
      FibreIs(Keeping(u, p), c, Range(m + 1) - {k});
    }
    forall x | x in Keeping(u, p) ensures |x| > 0 && Init(x) in Keeping(t, p) {
      var c, i := Last(size, m, t, u, x);
      AddedElems(t[c], size, m, i);
      assert p in Elems(u[x]);
    }
    FibreCount(Keeping(t, p), Keeping(u, p), m);
  }

  lemma {:induction false} Survives(s: seq<int>, size: nat, m: nat, i: int, k: int)
    requires |s| == size && Distinct(s) && Within(s, m) && 0 <= i <= m && 0 <= k < size
    ensures s[k] in Added(s, size, m, i) <==> i != k
  {
    AddedElems(s, size, m, i);
    assert s[k] in Elems(s) && s[k] != m;
    assert s[k] in Added(s, size, m, i) <==> s[k] in Elems(Added(s, size, m, i));
  }

  lemma {:induction false} NewestKept(s: seq<int>, size: nat, m: nat, i: int)
    requires |s| == size && Within(s, m) && 0 <= i <= m
    ensures m in Added(s, size, m, i) <==> i < size
  {
    if i < size { assert Added(s, size, m, i)[i] == m; }
  }

  lemma {:induction false} KeepingNewest(size: nat, m: nat, t: Table, u: Table)
    requires size <= m && Shaped(size, m, t) && Grown(size, m, t, u)
    ensures |Keeping(u, m)| == Times(|t.Keys|, size)
  {
    forall c | c in t.Keys ensures |Fibre(Keeping(u, m), c)| == size {
      forall i ensures c + [i] in Keeping(u, m) <==> i in Range(size) {
        if 0 <= i <= m { NewestKept(t[c], size, m, i); }
      }
      FibreIs(Keeping(u, m), c, Range(size));
    }
    forall x | x in Keeping(u, m) ensures |x| > 0 && Init(x) in t.Keys {
      var c, i := Last(size, m, t, u, x);
    }
    FibreCount(t.Keys, Keeping(u, m), size);
  }

  // ---------------------------------------------------------------------- whole streams

  /** The tables after `size`, `size + 1`, ... items, starting from the filled reservoir. */
  datatype History = Full(table: Table) | Then(before: History, table: Table)

  /** A history of a reservoir of `size` slots up to `n` items. */
  ghost predicate Valid(size: nat, n: nat, h: History) {
    match h
    case Full(t) => n == size && t.Keys == {[]} && Shaped(size, size, t)
    case Then(b, t) => size < n && Valid(size, n - 1, b) && Grown(size, n - 1, b.table, t)
  }

  lemma {:induction false} ValidShaped(size: nat, n: nat, h: History)
    requires Valid(size, n, h)
    ensures size <= n && Shaped(size, n, h.table)
  {
    match h
    case Full(_) =>
    case Then(b, t) =>
      ValidShaped(size, n - 1, b);
      GrownShaped(size, n - 1, b.table, t);
  }

  /** The number of draw sequences behind each sample, `k` items after the reservoir was full. */
  ghost function Ways(k: nat): (r: nat) {
    if k == 0 then 1 else Times(k, Ways(k - 1))
  }

  lemma {:induction false} WaysStep(k: nat)
    requires k > 0
    ensures Ways(k) == Times(k, Ways(k - 1)) == Times(Ways(k - 1), k)
  {
    TimesIs(k, Ways(k - 1));
    TimesIs(Ways(k - 1), k);
  }

  lemma {:induction false} FullElems(size: nat, h: History)
    requires h.Full? && Valid(size, size, h)
    ensures [] in h.table && Elems(h.table[[]]) == Range(size)
  {
    assert [] in h.table.Keys;
    ElemsSize(h.table[[]]);
    FullSubset(Elems(h.table[[]]), Range(size));
  }

  lemma {:induction false} FirstSample(size: nat, h: History, a: set<int>)
    requires h.Full? && Valid(size, size, h) && a <= Range(size) && |a| == size
    ensures |Producing(h.table, a)| == 1
  {
    FullElems(size, h);
    FullSubset(a, Range(size));
    assert Producing(h.table, a) == {[]};
  }

  lemma {:induction false} SampleWays(size: nat, n: nat, h: History, a: set<int>)
    requires Valid(size, n, h) && a <= Range(n) && |a| == size <= n
    ensures |Producing(h.table, a)| == Ways(n - size)
    decreases n, 0
  {
    match h
    case Full(_) => FirstSample(size, h, a);
    case Then(b, _) =>
      WaysStep(n - size);
      if n - 1 !in a {
        SampleWays(size, n - 1, b, a);
        WithoutNewest(size, n, h, a);
      } else {
        SampleWithNewest(size, n, h, a);
      }
  }

  lemma {:induction false} WithoutNewest(size: nat, n: nat, h: History, a: set<int>)
    requires h.Then? && Valid(size, n, h) && n - 1 !in a
    ensures |Producing(h.table, a)| == Times(|Producing(h.before.table, a)|, n - size)
  {
    ValidShaped(size, n - 1, h.before);
    ProducingWithoutNewest(size, n - 1, h.before.table, h.table, a);
  }

  lemma {:induction false} SampleWithNewest(size: nat, n: nat, h: History, a: set<int>)
    requires h.Then? && Valid(size, n, h) && a <= Range(n) && |a| == size && n - 1 in a
    ensures |Producing(h.table, a)| == Times(n - size, Ways(n - size - 1))
    decreases n - 1, n + 1
  {
    var rest := a - {n - 1};
    var qs := Range(n - 1) - rest;
    WithOneOfWays(size, n - 1, h.before, rest, qs, n - size);
    WithNewest(size, n, h, a, rest, qs);
  }

  lemma {:induction false} WithNewest(size: nat, n: nat, h: History, a: set<int>, rest: set<int>, qs: set<int>)
    requires h.Then? && Valid(size, n, h)
    requires rest <= Range(n - 1) && a == rest + {n - 1} && qs == Range(n - 1) - rest
    ensures |Producing(h.table, a)| == |WithOneOf(h.before.table, rest, qs)|
  {
    ValidShaped(size, n - 1, h.before);
    ProducingWithNewest(size, n - 1, h.before.table, h.table, a, rest, qs);
  }

  lemma {:induction false} WithOneOfWays(size: nat, n: nat, h: History, a: set<int>, qs: set<int>, count: nat)
    requires Valid(size, n, h) && |a| == size - 1 < n && a <= Range(n) && qs <= Range(n) && a !! qs && |qs| == count
    ensures |WithOneOf(h.table, a, qs)| == Times(count, Ways(n - size))
    decreases n, count
  {
    if qs != {} {
      var q0 := Choose(qs);
      WithOneOfSplit(h.table, a, qs, q0);
      SampleWays(size, n, h, a + {q0});
      WithOneOfWays(size, n, h, a, qs - {q0}, count - 1);
    }
  }

  /** The number of draw sequences, as the product of the numbers of choices. */
  ghost function RunCount(size: nat, k: nat): (r: nat) {
    if k == 0 then 1 else Times(RunCount(size, k - 1), size + k)
  }

  lemma {:induction false} RunsAreCounted(size: nat, n: nat, h: History)
    requires Valid(size, n, h) && size <= n
    ensures |h.table.Keys| == RunCount(size, n - size)
  {
    if h.Then? {
      RunsAreCounted(size, n - 1, h.before);
      TableGrows(size, n - 1, h.before.table, h.table);
    }
  }

  /** The number of draw sequences that keep a given position. */
  ghost function KeepCount(size: nat, k: nat, p: int): (r: nat) {
    if k == 0 then 1
    else if p == size + k - 1 then Times(RunCount(size, k - 1), size)
    else Times(KeepCount(size, k - 1, p), size + k - 1)
  }

  lemma {:induction false} FirstItem(size: nat, h: History, p: int)
    requires h.Full? && Valid(size, size, h) && 0 <= p < size
    ensures |Keeping(h.table, p)| == 1
  {
    FullElems(size, h);
    assert p in Elems(h.table[[]]);
    assert Keeping(h.table, p) == {[]};
  }

  lemma {:induction false} NewestStep(size: nat, n: nat, h: History)
    requires h.Then? && Valid(size, n, h)
    ensures |Keeping(h.table, n - 1)| == Times(|h.before.table.Keys|, size)
  {
    ValidShaped(size, n - 1, h.before);
    KeepingNewest(size, n - 1, h.before.table, h.table);
  }

  lemma {:induction false} OlderStep(size: nat, n: nat, h: History, p: int)
    requires h.Then? && Valid(size, n, h) && p != n - 1
    ensures |Keeping(h.table, p)| == Times(|Keeping(h.before.table, p)|, n - 1)
  {
    ValidShaped(size, n - 1, h.before);
    KeepingOlder(size, n - 1, h.before.table, h.table, p);
  }

  lemma {:induction false} KeepingIsCounted(size: nat, n: nat, h: History, p: int)
    requires Valid(size, n, h) && 0 <= p < n && size <= n
    ensures |Keeping(h.table, p)| == KeepCount(size, n - size, p)
  {
    match h
    case Full(_) => FirstItem(size, h, p);
    case Then(b, _) =>
      if p == n - 1 {
        RunsAreCounted(size, n - 1, b);
        NewestStep(size, n, h);
      } else {
        KeepingIsCounted(size, n - 1, b, p);
        OlderStep(size, n, h, p);
      }
  }

  // ---------------------------------------------------------------------- arithmetic

  ghost function Factorial(n: nat): (r: nat) {
    if n == 0 then 1 else n * Factorial(n - 1)
  }

  lemma {:induction false} WaysAre(k: nat)
    ensures Ways(k) == Factorial(k)
  {
    if k > 0 {
      WaysAre(k - 1);
      TimesIs(k, Ways(k - 1));
    }
  }

  lemma {:induction false} ProductStep(n: nat, before: nat, after: nat, f: nat)
    requires n > 0 && after == Times(before, n) && before * f == Factorial(n - 1)
    ensures after * f == Factorial(n)
  {
    TimesIs(before, n);
    assert before * n * f == n * (before * f);
  }

  lemma {:induction false} RunCountIs(size: nat, k: nat)
    ensures RunCount(size, k) * Factorial(size) == Factorial(size + k)
  {
    if k > 0 {
      RunCountIs(size, k - 1);
      ProductStep(size + k, RunCount(size, k - 1), RunCount(size, k), Factorial(size));
    }
  }

  lemma {:induction false} ShareStep(size: nat, n: nat, keptBefore: nat, runsBefore: nat, kept: nat, runs: nat)
    requires n > 0 && runs == Times(runsBefore, n)
    requires kept == Times(runsBefore, size) || (kept == Times(keptBefore, n - 1) && keptBefore * (n - 1) == size * runsBefore)
    ensures kept * n == size * runs
  {
    TimesIs(runsBefore, n);
    TimesIs(runsBefore, size);
    TimesIs(keptBefore, n - 1);
    assert kept == size * runsBefore;
    assert size * runsBefore * n == size * (runsBefore * n);
  }

  lemma {:induction false} KeepCountIs(size: nat, k: nat, p: int)
    requires 0 <= p < size + k
    ensures KeepCount(size, k, p) * (size + k) == size * RunCount(size, k)
  {
    if k > 0 {
      if p < size + k - 1 { KeepCountIs(size, k - 1, p); }
      ShareStep(size, size + k, if p < size + k - 1 then KeepCount(size, k - 1, p) else 0,
                RunCount(size, k - 1), KeepCount(size, k, p), RunCount(size, k));
    }
  }

  // ---------------------------------------------------------------------- uniformity

  /** Every possible sequence of draws for `n` items, with the slots it leads to. */
  ghost predicate IsTable(size: nat, n: nat, t: Table)
    requires size <= n
  {
    && (forall c {:trigger IsRun(size, n, c)} :: c in t <==> IsRun(size, n, c))
    && (forall c {:trigger t[c]} :: c in t && IsRun(size, n, c) ==> t[c] == Slots(size, n, c))
  }

  lemma {:induction false} FilledDistinct(size: nat, n: nat)
    requires n <= size
    ensures Distinct(Slots(size, n, []))
  {
    if n > 0 { FilledDistinct(size, n - 1); }
  }

  lemma {:induction false} RunStep(size: nat, m: nat, c: seq<int>, i: int)
    requires size <= m
    ensures IsRun(size, m + 1, c + [i]) <==> IsRun(size, m, c) && 0 <= i <= m
    ensures IsRun(size, m, c) ==> Slots(size, m + 1, c + [i]) == Added(Slots(size, m, c), size, m, i)
  {
    var x := c + [i];
    assert x[|c|] == i && x[..|x| - 1] == c;
    assert forall k :: 0 <= k < |c| ==> x[k] == c[k];
  }

  ghost function Inits(u: Table): (r: set<seq<int>>) {
    set x | x in u :: Init(x)
  }

  /** The draw sequences for `m` items out of those for `m + 1`. */
  ghost function Earlier(size: nat, m: nat, u: Table): (t: Table)
    requires size <= m
  {
    map c | c in Inits(u) && IsRun(size, m, c) :: Slots(size, m, c)
  }

  lemma {:induction false} EarlierKeys(size: nat, m: nat, u: Table, c: seq<int>)
    requires size <= m && IsTable(size, m + 1, u)
    ensures c in Earlier(size, m, u) <==> IsRun(size, m, c)
  {
    if IsRun(size, m, c) {
      RunStep(size, m, c, 0);
      assert c + [0] in u;
    }
  }

  lemma {:induction false} EarlierIsTable(size: nat, m: nat, u: Table)
    requires size <= m && IsTable(size, m + 1, u)
    ensures IsTable(size, m, Earlier(size, m, u))
  {
    forall c ensures c in Earlier(size, m, u) <==> IsRun(size, m, c) { EarlierKeys(size, m, u, c); }
  }

  lemma {:induction false} EarlierGrows(size: nat, m: nat, t: Table, u: Table)
    requires size <= m && IsTable(size, m, t) && IsTable(size, m + 1, u)
    ensures Grown(size, m, t, u)
  {
    forall x | x in u ensures |x| > 0 && Init(x) in t {
      assert IsRun(size, m + 1, x);
      assert x == Init(x) + [x[|x| - 1]];
      RunStep(size, m, Init(x), x[|x| - 1]);
    }
    forall c, i | c in t ensures c + [i] in u <==> 0 <= i <= m {
      assert IsRun(size, m, c);
      RunStep(size, m, c, i);
    }
    forall c, i | c in t && 0 <= i <= m ensures u[c + [i]] == Added(t[c], size, m, i) {
      assert IsRun(size, m, c);
      RunStep(size, m, c, i);
    }
  }

  lemma {:induction false} FirstHistory(size: nat, t: Table)
    requires IsTable(size, size, t)
    ensures Valid(size, size, Full(t))
  {
    FilledDistinct(size, size);
    assert IsRun(size, size, []);
    forall c | c in t.Keys ensures c == [] { assert IsRun(size, size, c); }
    assert t.Keys == {[]};
  }

  lemma {:induction false} LaterHistory(size: nat, n: nat, b: History, t: Table)
    requires size < n && Valid(size, n - 1, b) && IsTable(size, n - 1, b.table) && IsTable(size, n, t)
    ensures Valid(size, n, Then(b, t))
  {
    EarlierGrows(size, n - 1, b.table, t);
  }

  /** A complete table is the end of a history of complete tables. */
  lemma {:induction false} HistoryOf(size: nat, n: nat, t: Table) returns (h: History)
    requires size <= n && IsTable(size, n, t)
    ensures Valid(size, n, h) && h.table == t
  {
    if n == size {
      FirstHistory(size, t);
      h := Full(t);
    } else {
      var before := Earlier(size, n - 1, t);
      EarlierIsTable(size, n - 1, t);
      var b := HistoryOf(size, n - 1, before);
      LaterHistory(size, n, b, t);
      h := Then(b, t);
    }
  }

  /** There are `n! / size!` draw sequences for a stream of `n` items. */
  lemma {:induction false} RunsCount(size: nat, n: nat, t: Table)
    requires size <= n && IsTable(size, n, t)
    ensures |t.Keys| * Factorial(size) == Factorial(n)
  {
    var h := HistoryOf(size, n, t);
    RunsAreCounted(size, n, h);
    RunCountIs(size, n - size);
  }

  /**
   * Algorithm R is uniform over samples: once the reservoir is full, every set of `size` stream
   * positions is the outcome of exactly `(n - size)!` draw sequences, the same number for all sets.
   */
  lemma {:induction false} EverySampleEquallyOften(size: nat, n: nat, t: Table, a: set<int>)
    requires size <= n && IsTable(size, n, t) && a <= Range(n) && |a| == size
    ensures |Producing(t, a)| == Factorial(n - size)
  {
    var h := HistoryOf(size, n, t);
    SampleWays(size, n, h, a);
    WaysAre(n - size);
  }

  /** Every position of the stream is kept in the same share `size / n` of the draw sequences. */
  lemma {:induction false} EveryItemEquallyOften(size: nat, n: nat, t: Table, p: int)
    requires size <= n && IsTable(size, n, t) && 0 <= p < n
    ensures |Keeping(t, p)| * n == size * |t.Keys|
  {
    var h := HistoryOf(size, n, t);
    KeepingIsCounted(size, n, h, p);
    RunsAreCounted(size, n, h);
    KeepCountIs(size, n - size, p);
  }

  /** Every draw sequence leaves a sample of `min(size, n)` different positions, all of them in the stream. */
  lemma {:induction false} EveryRunIsASample(size: nat, n: nat, c: seq<int>)
    requires IsRun(size, n, c)
    ensures Distinct(Slots(size, n, c)) && Elems(Slots(size, n, c)) <= Range(n)
    ensures |Elems(Slots(size, n, c))| == if n <= size then n else size
  {
    SlotsDistinct(size, n, c);
    ElemsSize(Slots(size, n, c));
  }

  lemma {:induction false} SlotsDistinct(size: nat, n: nat, c: seq<int>)
    requires IsRun(size, n, c)
    ensures Distinct(Slots(size, n, c))
    decreases n
  {
    hide Slots, Added, Elems;
    if n <= size {
      assert c == [];
      FilledDistinct(size, n);
    } else {
      var before, draw := c[..|c| - 1], c[|c| - 1];
      assert c == before + [draw];
      RunStep(size, n - 1, before, draw);
      SlotsDistinct(size, n - 1, before);
      AddedElems(Slots(size, n - 1, before), size, n - 1, draw);
    }
  }

  // ---------------------------------------------------------------------- the table exists

  ghost function OneMoreDraw(t: Table, m: nat): (r: set<seq<int>>) {
    set c, i | c in t && i in Range(m + 1) :: c + [i]
  }

  ghost function Extension(size: nat, m: nat, t: Table): (u: Table)
    requires size <= m
  {
    map x | x in OneMoreDraw(t, m) && IsRun(size, m + 1, x) :: Slots(size, m + 1, x)
  }

  lemma {:induction false} ExtensionKeys(size: nat, m: nat, t: Table, x: seq<int>)
    requires size <= m && IsTable(size, m, t)
    ensures x in Extension(size, m, t) <==> IsRun(size, m + 1, x)
  {
    if IsRun(size, m + 1, x) {
      var c, i := x[..|x| - 1], x[|x| - 1];
      assert x == c + [i];
      RunStep(size, m, c, i);
      assert c in t && i in Range(m + 1);
    }
  }

  /** For every reservoir size and stream length there is a complete table of the draw sequences. */
  lemma {:induction false} TableExists(size: nat, n: nat) returns (t: Table)
    requires size <= n
    ensures IsTable(size, n, t)
  {
    if n == size {
      t := map[[] := Slots(size, size, [])];
    } else {
      var before := TableExists(size, n - 1);
      t := Extension(size, n - 1, before);
      forall x ensures x in t <==> IsRun(size, n, x) { ExtensionKeys(size, n - 1, before, x); }
    }
  }
}
