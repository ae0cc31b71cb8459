/** Cardinalities of finite sets of numbers. */
module Finite {

  ghost function Elems(s: seq<int>): (r: set<int>) {
    set x | x in s
  }

  ghost predicate Distinct(s: seq<int>) {
    forall j, k :: 0 <= j < k < |s| ==> s[j] != s[k]
  }

  ghost predicate Within(s: seq<int>, n: int) {
    forall x :: x in s ==> 0 <= x < n
  }

  ghost function Range(n: nat): (r: set<int>)
    ensures forall i :: i in r <==> 0 <= i < n
    ensures |r| == n
  {
    if n == 0 then {} else Range(n - 1) + {n - 1}
  }

  lemma {:induction false} UnionSize<T>(whole: set<T>, a: set<T>, b: set<T>)
    requires whole == a + b && a !! b
    ensures |whole| == |a| + |b|
  {
  }

  lemma {:induction false} MinusOne<T>(a: set<T>, x: T)
    requires x in a
    ensures |a - {x}| == |a| - 1
  {
  }

  lemma {:induction false} SubsetMinus<T>(a: set<T>, b: set<T>)
    ensures a <= b <==> a - b == {}
    ensures a <= b <==> |a - b| == 0
  {
    if a - b == {} {
      forall x | x in a ensures x in b { assert x in a - b || x in b; }
    }
  }

  lemma {:induction false} Choose<T>(a: set<T>) returns (x: T)
    requires a != {}
    ensures x in a
  {
    x :| x in a;
  }

  lemma {:induction false} SubsetSize<T>(a: set<T>, b: set<T>)
    requires a <= b
    ensures |a| <= |b|
    decreases |a|
  {
    if a != {} {
      var x := Choose(a);
      SubsetSize(a - {x}, b - {x});
    }
  }

  lemma {:induction false} FullSubset<T>(a: set<T>, b: set<T>)
    requires a <= b && |a| == |b|
    ensures a == b
  {
    if a != b {
      var x :| x in b && x !in a;
      SubsetSize(a, b - {x});
    }
  }

  lemma {:induction false} ElemsSize(s: seq<int>)
    requires Distinct(s)
    ensures |Elems(s)| == |s|
  {
    if s != [] {
      var t, x := s[..|s| - 1], s[|s| - 1];
      ElemsSize(t);
      assert s == t + [x];
      UnionSize(Elems(s), Elems(t), {x});
    }
  }

  /** A sequence longer than its range of values repeats one. */
  lemma {:induction false} Pigeonhole(s: seq<int>, n: nat) returns (i: nat, j: nat)
    requires Within(s, n) && |s| > n
    ensures i < j < |s| && s[i] == s[j]
  {
    if Distinct(s) {
      ElemsSize(s);
      SubsetSize(Elems(s), Range(n));
    }
    i, j :| 0 <= i < j < |s| && s[i] == s[j];
  }
}
